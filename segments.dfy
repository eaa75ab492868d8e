/** The rule-based classifier `segment_customers`: eleven labels chosen by a
    first-match cascade over the three 1..5 scores. */
module Segments {

  datatype Segment =
    | Champions | LoyalCustomers | PotentialLoyalists | NewCustomers
    | Promising | NeedAttention | AboutToSleep | AtRisk
    | CannotLoseThem | Hibernating | Lost

  /** The label `segment_customers` writes into the `Segment` column. */
  function Name(s: Segment): string
  {
    match s
    case Champions => "Champions"
    case LoyalCustomers => "Loyal Customers"
    case PotentialLoyalists => "Potential Loyalists"
    case NewCustomers => "New Customers"
    case Promising => "Promising"
    case NeedAttention => "Need Attention"
    case AboutToSleep => "About to Sleep"
    case AtRisk => "At Risk"
    case CannotLoseThem => "Cannot Lose Them"
    case Hibernating => "Hibernating"
    case Lost => "Lost"
  }

  /** Every label, in the alphabetical order of its name: the order in
      which a group-by on `Segment` lists its groups. */
  const ByName: seq<Segment> := [
    AboutToSleep, AtRisk, CannotLoseThem, Champions, Hibernating, Lost,
    LoyalCustomers, NeedAttention, NewCustomers, PotentialLoyalists, Promising
  ]

  /** The position of a label in `ByName`. */
  function NameRank(s: Segment): (k: nat)
    ensures k < |ByName| && ByName[k] == s
  {
    match s
    case AboutToSleep => 0
    case AtRisk => 1
    case CannotLoseThem => 2
    case Champions => 3
    case Hibernating => 4
    case Lost => 5
    case LoyalCustomers => 6
    case NeedAttention => 7
    case NewCustomers => 8
    case PotentialLoyalists => 9
    case Promising => 10
  }

  /** `ByName` lists every label exactly once. */
  lemma ByNameRanks(k: int)
    requires 0 <= k < |ByName|
    ensures NameRank(ByName[k]) == k
  {
  }

  /** Code-point lexicographic order on strings, as Python compares them. */
  predicate LexLess(a: string, b: string)
  {
    if |a| == 0 then |b| > 0
    else if |b| == 0 then false
    else if a[0] != b[0] then a[0] < b[0]
    else LexLess(a[1..], b[1..])
  }

  lemma {:induction false} LexLessTrans(a: string, b: string, c: string)
    requires LexLess(a, b) && LexLess(b, c)
    ensures LexLess(a, c)
  {
    if |a| > 0 && |b| > 0 && |c| > 0 && a[0] == b[0] && b[0] == c[0] {
      LexLessTrans(a[1..], b[1..], c[1..]);
    }
  }

  /** Two strings that agree up to position p and differ there are ordered
      by the characters at p. */
  lemma {:induction false} LexLessAt(a: string, b: string, p: nat)
    requires p < |a| && p < |b| && a[..p] == b[..p] && a[p] < b[p]
    ensures LexLess(a, b)
  {
    if p > 0 {
      assert a[0] == a[..p][0] == b[..p][0] == b[0];
      assert a[1..][..p - 1] == a[..p][1..] == b[..p][1..] == b[1..][..p - 1];
      LexLessAt(a[1..], b[1..], p - 1);
    }
  }

  /** Each name is below the name of the next label in `ByName`. */
  lemma NameStep(a: Segment)
    requires NameRank(a) + 1 < |ByName|
    ensures LexLess(Name(a), Name(ByName[NameRank(a) + 1]))
  {
    match a
    case AboutToSleep =>
      assert ByName[1] == AtRisk;
      LexLessAt("About to Sleep", "At Risk", 1);
    case AtRisk =>
      assert ByName[2] == CannotLoseThem;
      LexLessAt("At Risk", "Cannot Lose Them", 0);
    case CannotLoseThem =>
      assert ByName[3] == Champions;
      LexLessAt("Cannot Lose Them", "Champions", 1);
    case Champions =>
      assert ByName[4] == Hibernating;
      LexLessAt("Champions", "Hibernating", 0);
    case Hibernating =>
      assert ByName[5] == Lost;
      LexLessAt("Hibernating", "Lost", 0);
    case Lost =>
      assert ByName[6] == LoyalCustomers;
      LexLessAt("Lost", "Loyal Customers", 2);
    case LoyalCustomers =>
      assert ByName[7] == NeedAttention;
      LexLessAt("Loyal Customers", "Need Attention", 0);
    case NeedAttention =>
      assert ByName[8] == NewCustomers;
      LexLessAt("Need Attention", "New Customers", 2);
    case NewCustomers =>
      assert ByName[9] == PotentialLoyalists;
      LexLessAt("New Customers", "Potential Loyalists", 0);
    case PotentialLoyalists =>
      assert ByName[10] == Promising;
      LexLessAt("Potential Loyalists", "Promising", 1);
    case Promising => assert false;
  }

  /** The names in `ByName` are in strictly increasing string order, so a
      sort on the Segment column lists the labels in this order. */
  lemma {:induction false} ByNameIsSorted(i: int, j: int)
    requires 0 <= i < j < |ByName|
    ensures LexLess(Name(ByName[i]), Name(ByName[j]))
    decreases j - i
  {
    if j == i + 1 {
      ByNameRanks(i);
      NameStep(ByName[i]);
    } else {
      ByNameIsSorted(i, j - 1);
      ByNameIsSorted(j - 1, j);
      LexLessTrans(Name(ByName[i]), Name(ByName[j - 1]), Name(ByName[j]));
    }
  }

  /** The scores as one customer row holds them. */
  predicate IsScore(x: int) { 1 <= x <= 5 }

  /** The cascade exactly as written. The last two ensures are the dead
      branch: r >= 4 never reaches past New Customers, and the guard of
      Cannot Lose Them (m >= 4 and r == 1) is already caught by At Risk
      (m >= 4 and r <= 2), so that label is never produced. */
  function Classify(r: int, f: int, m: int): (s: Segment)
    ensures r >= 4 ==> s == Champions || s == PotentialLoyalists || s == NewCustomers
    ensures s != CannotLoseThem
  {
    if r >= 4 && f >= 4 && m >= 4 then Champions
    else if f >= 4 && m >= 4 then LoyalCustomers
    else if r >= 4 && f >= 3 then PotentialLoyalists
    else if r >= 4 && f <= 2 then NewCustomers
    else if r >= 3 && f >= 2 && m >= 2 then Promising
    else if r >= 3 && f >= 3 then NeedAttention
    else if r == 2 && f >= 2 && m >= 2 then AboutToSleep
    else if m >= 4 && r <= 2 then AtRisk
    else if m >= 4 && r == 1 then CannotLoseThem
    else if r <= 2 && f >= 2 then Hibernating
    else Lost
  }

  /** Two fixed points of the cascade: all fives are Champions, and a
      customer with the lowest recency and frequency scores but the top
      monetary score is At Risk. */
  lemma ClassifyExamples()
    ensures Classify(5, 5, 5) == Champions
    ensures Classify(1, 1, 5) == AtRisk
  {
  }

  /** Every other label is produced by some triple of scores, so
      Cannot Lose Them is the only dead branch. */
  lemma {:induction false} LiveSegments(s: Segment)
    requires s != CannotLoseThem
    ensures exists r, f, m :: IsScore(r) && IsScore(f) && IsScore(m) && Classify(r, f, m) == s
  {
    var t := match s
      case Champions => (5, 5, 5)
      case LoyalCustomers => (1, 5, 5)
      case PotentialLoyalists => (5, 3, 1)
      case NewCustomers => (5, 1, 1)
      case Promising => (3, 2, 2)
      case NeedAttention => (3, 3, 1)
      case AboutToSleep => (2, 2, 2)
      case AtRisk => (1, 1, 5)
      case Hibernating => (1, 2, 1)
      case Lost => (1, 1, 1);
    assert IsScore(t.0) && IsScore(t.1) && IsScore(t.2) && Classify(t.0, t.1, t.2) == s;
  }

  // ------------------------------------------------------------ the rule table

  /** The same cascade as data: an ordered list of (guard, label) rules
      where the first rule whose guard holds decides the label. */
  datatype Score = R | F | M
  datatype Cond = AtLeast(score: Score, k: int) | AtMost(score: Score, k: int) | Exactly(score: Score, k: int)
  datatype Rule = Rule(guard: seq<Cond>, segment: Segment)

  function Value(c: Score, r: int, f: int, m: int): int
  {
    match c
    case R => r
    case F => f
    case M => m
  }

  predicate CondHolds(c: Cond, r: int, f: int, m: int)
  {
    match c
    case AtLeast(x, k) => Value(x, r, f, m) >= k
    case AtMost(x, k) => Value(x, r, f, m) <= k
    case Exactly(x, k) => Value(x, r, f, m) == k
  }

  /** A guard is a conjunction; the empty guard is the final `else`. */
  predicate GuardHolds(g: seq<Cond>, r: int, f: int, m: int)
  {
    forall i :: 0 <= i < |g| ==> CondHolds(g[i], r, f, m)
  }

  const Rules: seq<Rule> := [
    Rule([AtLeast(R, 4), AtLeast(F, 4), AtLeast(M, 4)], Champions),
    Rule([AtLeast(F, 4), AtLeast(M, 4)], LoyalCustomers),
    Rule([AtLeast(R, 4), AtLeast(F, 3)], PotentialLoyalists),
    Rule([AtLeast(R, 4), AtMost(F, 2)], NewCustomers),
    Rule([AtLeast(R, 3), AtLeast(F, 2), AtLeast(M, 2)], Promising),
    Rule([AtLeast(R, 3), AtLeast(F, 3)], NeedAttention),
    Rule([Exactly(R, 2), AtLeast(F, 2), AtLeast(M, 2)], AboutToSleep),
    Rule([AtLeast(M, 4), AtMost(R, 2)], AtRisk),
    Rule([AtLeast(M, 4), Exactly(R, 1)], CannotLoseThem),
    Rule([AtMost(R, 2), AtLeast(F, 2)], Hibernating),
    Rule([], Lost)
  ]

  /** Position of the first rule whose guard holds, or |rules| if none does. */
  function FirstMatch(rules: seq<Rule>, r: int, f: int, m: int): (i: nat)
    ensures i <= |rules|
    ensures i < |rules| ==> GuardHolds(rules[i].guard, r, f, m)
    ensures forall j :: 0 <= j < i ==> !GuardHolds(rules[j].guard, r, f, m)
  {
    if rules == [] then 0
    else if GuardHolds(rules[0].guard, r, f, m) then 0
    else 1 + FirstMatch(rules[1..], r, f, m)
  }

  /** The table always ends in its catch-all, so some rule always fires. */
  lemma {:induction false} RulesTotal(r: int, f: int, m: int)
    ensures FirstMatch(Rules, r, f, m) < |Rules|
  {
    assert GuardHolds(Rules[10].guard, r, f, m);
  }

  /** What each guard of the table says, in the cascade's own words. */
  lemma {:induction false} GuardMeaning(r: int, f: int, m: int)
    ensures GuardHolds(Rules[0].guard, r, f, m) == (r >= 4 && f >= 4 && m >= 4)
    ensures GuardHolds(Rules[1].guard, r, f, m) == (f >= 4 && m >= 4)
    ensures GuardHolds(Rules[2].guard, r, f, m) == (r >= 4 && f >= 3)
    ensures GuardHolds(Rules[3].guard, r, f, m) == (r >= 4 && f <= 2)
    ensures GuardHolds(Rules[4].guard, r, f, m) == (r >= 3 && f >= 2 && m >= 2)
    ensures GuardHolds(Rules[5].guard, r, f, m) == (r >= 3 && f >= 3)
    ensures GuardHolds(Rules[6].guard, r, f, m) == (r == 2 && f >= 2 && m >= 2)
    ensures GuardHolds(Rules[7].guard, r, f, m) == (m >= 4 && r <= 2)
    ensures GuardHolds(Rules[8].guard, r, f, m) == (m >= 4 && r == 1)
    ensures GuardHolds(Rules[9].guard, r, f, m) == (r <= 2 && f >= 2)
    ensures GuardHolds(Rules[10].guard, r, f, m)
  {
    Guard3(Rules[0].guard, r, f, m);
    Guard2(Rules[1].guard, r, f, m);
    Guard2(Rules[2].guard, r, f, m);
    Guard2(Rules[3].guard, r, f, m);
    Guard3(Rules[4].guard, r, f, m);
    Guard2(Rules[5].guard, r, f, m);
    Guard3(Rules[6].guard, r, f, m);
    Guard2(Rules[7].guard, r, f, m);
    Guard2(Rules[8].guard, r, f, m);
    Guard2(Rules[9].guard, r, f, m);
  }

  lemma Guard2(g: seq<Cond>, r: int, f: int, m: int)
    requires |g| == 2
    ensures GuardHolds(g, r, f, m) == (CondHolds(g[0], r, f, m) && CondHolds(g[1], r, f, m))
  {
  }

  lemma Guard3(g: seq<Cond>, r: int, f: int, m: int)
    requires |g| == 3
    ensures GuardHolds(g, r, f, m) == (CondHolds(g[0], r, f, m) && CondHolds(g[1], r, f, m) && CondHolds(g[2], r, f, m))
  {
  }

  /** The cascade and the table agree on every input. */
  lemma {:induction false} ClassifyIsFirstMatch(r: int, f: int, m: int)
    ensures FirstMatch(Rules, r, f, m) < |Rules|
    ensures Classify(r, f, m) == Rules[FirstMatch(Rules, r, f, m)].segment
  {
    RulesTotal(r, f, m);
    GuardMeaning(r, f, m);
    var i := FirstMatch(Rules, r, f, m);
    assert 0 < i ==> !GuardHolds(Rules[0].guard, r, f, m);
    assert 1 < i ==> !GuardHolds(Rules[1].guard, r, f, m);
    assert 2 < i ==> !GuardHolds(Rules[2].guard, r, f, m);
    assert 3 < i ==> !GuardHolds(Rules[3].guard, r, f, m);
    assert 4 < i ==> !GuardHolds(Rules[4].guard, r, f, m);
    assert 5 < i ==> !GuardHolds(Rules[5].guard, r, f, m);
    assert 6 < i ==> !GuardHolds(Rules[6].guard, r, f, m);
    assert 7 < i ==> !GuardHolds(Rules[7].guard, r, f, m);
    assert 8 < i ==> !GuardHolds(Rules[8].guard, r, f, m);
    assert 9 < i ==> !GuardHolds(Rules[9].guard, r, f, m);
  }

  /** The Cannot Lose Them guard (Rules[8]) implies the At Risk guard
      (Rules[7]), so Rules[8] is never the first match. */
  lemma {:induction false} CannotLoseThemShadowed(r: int, f: int, m: int)
    requires GuardHolds(Rules[8].guard, r, f, m)
    ensures GuardHolds(Rules[7].guard, r, f, m)
    ensures FirstMatch(Rules, r, f, m) != 8
  {
    var g8, g7 := Rules[8].guard, Rules[7].guard;
    assert CondHolds(g8[0], r, f, m) && CondHolds(g8[1], r, f, m);
    assert CondHolds(g7[0], r, f, m) && CondHolds(g7[1], r, f, m);
  }
}
