/** The cleaning rules of the preprocessing pipeline, one function per
    step, each stated on the whole table: dropping rows with missing
    critical fields and filling the others, keep-first de-duplication,
    the future-date filter, the monetary filters, the product-category
    mapping, outlier capping, the derived season and amount band, and the
    validation report. */
module PreprocessingRules {
  import opened Wrappers
  import opened Seqs

  datatype Season = Winter | Spring | Summer | Fall

  /** The labels of the amount bins, lowest first. */
  datatype AmountBand = VeryLow | Low | Medium | High | VeryHigh | Premium

  /** A transaction row; None stands for a missing value (NaN, NaT). Dates
      are day numbers. `season` and `amountCategory` are the derived
      columns. */
  datatype Record = Record(
    customerId: Option<int>, date: Option<int>, amount: Option<real>,
    total: Option<real>, unitPrice: Option<real>, category: Option<string>,
    season: Option<Season>, amountCategory: Option<AmountBand>)

  /** Which optional columns the table has. The three critical columns
      customer_id, transaction_date and transaction_amount are always
      there; `hasDerived` says that the derived columns were added. */
  datatype Schema = Schema(hasTotal: bool, hasUnitPrice: bool, hasCategory: bool, hasDerived: bool)

  // ------------------------------------------------------------ missing values

  datatype Critical = CustomerIdField | DateField | AmountField

  /** The critical fields, in the order their rows are dropped. */
  const CriticalFields: seq<Critical> := [CustomerIdField, DateField, AmountField]

  predicate Has(r: Record, f: Critical)
  {
    match f
    case CustomerIdField => r.customerId.Some?
    case DateField => r.date.Some?
    case AmountField => r.amount.Some?
  }

  /** No critical field is missing. */
  predicate Complete(r: Record)
  {
    r.customerId.Some? && r.date.Some? && r.amount.Some?
  }

  /** `dropna(subset=[f])`. */
  function DropMissing(rows: seq<Record>, f: Critical): (out: seq<Record>)
    ensures forall x :: x in out <==> x in rows && Has(x, f)
  {
    Filter(rows, (r: Record) => Has(r, f))
  }

  /** `dropna` for each field of fs in turn. */
  function DropMissingFields(rows: seq<Record>, fs: seq<Critical>): seq<Record>
    decreases |fs|
  {
    if fs == [] then rows
    else DropMissing(DropMissingFields(rows, fs[..|fs| - 1]), fs[|fs| - 1])
  }

  /** Dropping rows field by field deletes rows only, and keeps exactly the
      rows that have every one of the fields. */
  lemma {:induction false} DropMissingFieldsFacts(rows: seq<Record>, fs: seq<Critical>)
    ensures IsSubsequence(DropMissingFields(rows, fs), rows)
    ensures forall x :: x in DropMissingFields(rows, fs) <==> x in rows && forall f :: f in fs ==> Has(x, f)
    decreases |fs|
  {
    if fs == [] {
      SubsequenceRefl(rows);
    } else {
      var init := fs[..|fs| - 1];
      var prev := DropMissingFields(rows, init);
      DropMissingFieldsFacts(rows, init);
      FilterIsSubsequence(prev, (r: Record) => Has(r, fs[|fs| - 1]));
      SubsequenceTrans(DropMissingFields(rows, fs), prev, rows);
      assert fs == init + [fs[|fs| - 1]];
    }
  }

  /** After the critical-field step no row lacks a critical field, and
      every row that had them all is still there. */
  lemma CriticalFieldsPresent(rows: seq<Record>)
    ensures IsSubsequence(DropMissingFields(rows, CriticalFields), rows)
    ensures forall x :: x in DropMissingFields(rows, CriticalFields) <==> x in rows && Complete(x)
  {
    DropMissingFieldsFacts(rows, CriticalFields);
    forall x ensures (forall f :: f in CriticalFields ==> Has(x, f)) <==> Complete(x) {
      assert Has(x, CriticalFields[0]) && Has(x, CriticalFields[1]) && Has(x, CriticalFields[2]) ==> Complete(x);
    }
  }

  /** The values the non-critical columns are filled with: their median
      (None when the column has no value at all) and the category mode, or
      "Unknown" when there is none. */
  datatype Fills = Fills(total: Option<real>, unitPrice: Option<real>, category: string)

  function FillValue<T>(v: Option<T>, present: bool, fill: Option<T>): (w: Option<T>)
    ensures v.Some? ==> w == v
    ensures !present ==> w == v
    ensures present && fill.Some? ==> w.Some?
  {
    if present && v.None? then fill else v
  }

  /** `fillna` on the non-critical columns the table has. */
  function FillRow(r: Record, schema: Schema, fills: Fills): Record
  {
    r.(total := FillValue(r.total, schema.hasTotal, fills.total),
       unitPrice := FillValue(r.unitPrice, schema.hasUnitPrice, fills.unitPrice),
       category := FillValue(r.category, schema.hasCategory, Some(fills.category)))
  }

  function FillMissing(rows: seq<Record>, schema: Schema, fills: Fills): (out: seq<Record>)
    ensures |out| == |rows|
    ensures forall i :: 0 <= i < |rows| ==> out[i] == FillRow(rows[i], schema, fills)
  {
    seq(|rows|, i requires 0 <= i < |rows| => FillRow(rows[i], schema, fills))
  }

  /** `_handle_missing_values`. */
  function HandleMissing(rows: seq<Record>, schema: Schema, fills: Fills): seq<Record>
  {
    FillMissing(DropMissingFields(rows, CriticalFields), schema, fills)
  }

  /** Filling touches only missing values of columns the table has: the
      critical fields and every present value are kept, and a present
      category column has no gap left. */
  lemma FillKeepsValues(r: Record, schema: Schema, fills: Fills)
    ensures var x := FillRow(r, schema, fills);
      && x.customerId == r.customerId && x.date == r.date && x.amount == r.amount
      && (r.total.Some? ==> x.total == r.total)
      && (r.unitPrice.Some? ==> x.unitPrice == r.unitPrice)
      && (r.category.Some? ==> x.category == r.category)
      && (schema.hasCategory ==> x.category.Some?)
      && (schema.hasTotal && fills.total.Some? ==> x.total.Some?)
      && (schema.hasUnitPrice && fills.unitPrice.Some? ==> x.unitPrice.Some?)
      && (!schema.hasTotal ==> x.total == r.total)
  {
  }

  /** No gap is left in a non-critical column the table has, given fill
      values for its numeric columns. */
  predicate Filled(r: Record, schema: Schema, fills: Fills)
  {
    && (schema.hasTotal && fills.total.Some? ==> r.total.Some?)
    && (schema.hasUnitPrice && fills.unitPrice.Some? ==> r.unitPrice.Some?)
    && (schema.hasCategory ==> r.category.Some?)
  }

  /** After `_handle_missing_values` every row has all critical fields,
      and every complete input row survives (filled). */
  lemma HandleMissingFacts(rows: seq<Record>, schema: Schema, fills: Fills)
    ensures forall x :: x in HandleMissing(rows, schema, fills) ==> Complete(x) && Filled(x, schema, fills)
    ensures forall x :: x in rows && Complete(x) ==> FillRow(x, schema, fills) in HandleMissing(rows, schema, fills)
  {
    var kept := DropMissingFields(rows, CriticalFields);
    var out := HandleMissing(rows, schema, fills);
    CriticalFieldsPresent(rows);
    forall x | x in out ensures Complete(x) && Filled(x, schema, fills) {
      var i :| 0 <= i < |out| && out[i] == x;
      assert kept[i] in kept;
      FillKeepsValues(kept[i], schema, fills);
    }
    forall x | x in rows && Complete(x) ensures FillRow(x, schema, fills) in out {
      var i :| 0 <= i < |kept| && kept[i] == x;
      assert out[i] == FillRow(x, schema, fills);
    }
  }

  // ------------------------------------------------------------ duplicates

  function RowItself(r: Record): Record { r }

  /** The business key customer_id, transaction_date, transaction_amount. */
  function TxKey(r: Record): (Option<int>, Option<int>, Option<real>)
  {
    (r.customerId, r.date, r.amount)
  }

  /** `_remove_duplicates`: exact duplicates first, then duplicates of the
      business key, keeping the first each time. */
  function RemoveDuplicates(rows: seq<Record>): seq<Record>
  {
    DropDuplicates(DropDuplicates(rows, RowItself), TxKey)
  }

  /** Removing exact duplicates first changes nothing, as long as every row
      already seen has its key already seen. */
  lemma {:induction false} ExactPassRedundant(s: seq<Record>, seenRows: set<Record>, seenKeys: set<(Option<int>, Option<int>, Option<real>)>)
    requires forall x :: x in seenRows ==> TxKey(x) in seenKeys
    ensures DropDuplicatesFrom(DropDuplicatesFrom(s, RowItself, seenRows), TxKey, seenKeys)
         == DropDuplicatesFrom(s, TxKey, seenKeys)
  {
    if s != [] {
      var x := s[0];
      if x in seenRows {
        ExactPassRedundant(s[1..], seenRows, seenKeys);
      } else {
        var rest := DropDuplicatesFrom(s[1..], RowItself, seenRows + {x});
        assert DropDuplicatesFrom(s, RowItself, seenRows) == [x] + rest;
        assert ([x] + rest)[0] == x && ([x] + rest)[1..] == rest;
        if TxKey(x) in seenKeys {
          ExactPassRedundant(s[1..], seenRows + {x}, seenKeys);
        } else {
          ExactPassRedundant(s[1..], seenRows + {x}, seenKeys + {TxKey(x)});
        }
      }
    }
  }

  /** `_remove_duplicates` deletes rows only, leaves no two rows with the
      same business key, drops no key, and keeps the first row of each. */
  lemma RemoveDuplicatesFacts(rows: seq<Record>)
    ensures var out := RemoveDuplicates(rows);
      && out == DropDuplicates(rows, TxKey)
      && IsSubsequence(out, rows)
      && KeysDistinct(out, TxKey)
      && (forall x :: x in rows ==> exists y :: y in out && TxKey(y) == TxKey(x))
      && KeepsFirst(out, rows, TxKey)
  {
    ExactPassRedundant(rows, {}, {});
    DropDuplicatesSpec(rows, TxKey);
  }

  // ------------------------------------------------------------ dates

  predicate IsFuture(r: Record, now: int)
  {
    r.date.Some? && r.date.value > now
  }

  predicate NotAfter(r: Record, now: int)
  {
    r.date.Some? && r.date.value <= now
  }

  /** The future-date part of `_clean_date_columns`: when some date is
      after `now`, keep the rows whose date is not (a missing date compares
      false and goes too); otherwise leave the table alone. */
  function DropFutureDates(rows: seq<Record>, now: int): seq<Record>
  {
    if exists r :: r in rows && IsFuture(r, now) then Filter(rows, (r: Record) => NotAfter(r, now))
    else rows
  }

  /** Afterwards no date is after `now`; only rows are deleted, order kept,
      and every row dated on or before `now` survives. */
  lemma FutureDatesGone(rows: seq<Record>, now: int)
    ensures var out := DropFutureDates(rows, now);
      && IsSubsequence(out, rows)
      && (forall x :: x in out ==> !IsFuture(x, now))
      && (forall x :: x in rows && NotAfter(x, now) ==> x in out)
  {
    if exists r :: r in rows && IsFuture(r, now) {
      FilterIsSubsequence(rows, (r: Record) => NotAfter(r, now));
    } else {
      SubsequenceRefl(rows);
    }
  }

  // ------------------------------------------------------------ money

  datatype Money = TransactionAmount | TotalAmount | UnitPrice

  /** The monetary columns in the order they are cleaned. */
  const MoneyColumns: seq<Money> := [TransactionAmount, TotalAmount, UnitPrice]

  function Value(r: Record, m: Money): Option<real>
  {
    match m
    case TransactionAmount => r.amount
    case TotalAmount => r.total
    case UnitPrice => r.unitPrice
  }

  predicate Present(schema: Schema, m: Money)
  {
    match m
    case TransactionAmount => true
    case TotalAmount => schema.hasTotal
    case UnitPrice => schema.hasUnitPrice
  }

  /** Zero is rejected for transaction and total amounts, not unit prices. */
  predicate RejectsZero(m: Money)
  {
    m == TransactionAmount || m == TotalAmount
  }

  predicate IsNegative(r: Record, m: Money)
  {
    Value(r, m).Some? && Value(r, m).value < 0.0
  }

  predicate IsZero(r: Record, m: Money)
  {
    Value(r, m).Some? && Value(r, m).value == 0.0
  }

  /** A value the monetary step accepts. */
  predicate Acceptable(r: Record, m: Money)
  {
    Value(r, m).Some? && (if RejectsZero(m) then Value(r, m).value > 0.0 else Value(r, m).value >= 0.0)
  }

  /** When some value is negative, keep the rows whose value is `>= 0`
      (a missing value compares false and goes too). */
  function DropNegative(rows: seq<Record>, m: Money): seq<Record>
  {
    if exists r :: r in rows && IsNegative(r, m)
    then Filter(rows, (r: Record) => Value(r, m).Some? && Value(r, m).value >= 0.0)
    else rows
  }

  /** When some value is zero, keep the rows whose value is `> 0`. */
  function DropZero(rows: seq<Record>, m: Money): seq<Record>
  {
    if exists r :: r in rows && IsZero(r, m)
    then Filter(rows, (r: Record) => Value(r, m).Some? && Value(r, m).value > 0.0)
    else rows
  }

  function CleanColumn(rows: seq<Record>, m: Money): seq<Record>
  {
    var kept := DropNegative(rows, m);
    if RejectsZero(m) then DropZero(kept, m) else kept
  }

  lemma DropNegativeFacts(rows: seq<Record>, m: Money)
    ensures var out := DropNegative(rows, m);
      && IsSubsequence(out, rows)
      && (forall x :: x in out ==> !IsNegative(x, m))
      && (forall x :: x in rows && Value(x, m).Some? && Value(x, m).value >= 0.0 ==> x in out)
  {
    if exists r :: r in rows && IsNegative(r, m) {
      FilterIsSubsequence(rows, (r: Record) => Value(r, m).Some? && Value(r, m).value >= 0.0);
    } else {
      SubsequenceRefl(rows);
    }
  }

  lemma DropZeroFacts(rows: seq<Record>, m: Money)
    ensures var out := DropZero(rows, m);
      && IsSubsequence(out, rows)
      && (forall x :: x in out ==> !IsZero(x, m))
      && (forall x :: x in rows && Value(x, m).Some? && Value(x, m).value > 0.0 ==> x in out)
  {
    if exists r :: r in rows && IsZero(r, m) {
      FilterIsSubsequence(rows, (r: Record) => Value(r, m).Some? && Value(r, m).value > 0.0);
    } else {
      SubsequenceRefl(rows);
    }
  }

  /** One column's step deletes rows only, leaves no negative value in
      that column (and no zero where zero is rejected), and keeps every row
      whose value is acceptable. */
  lemma CleanColumnFacts(rows: seq<Record>, m: Money)
    ensures var out := CleanColumn(rows, m);
      && IsSubsequence(out, rows)
      && (forall x :: x in out ==> !IsNegative(x, m) && (RejectsZero(m) ==> !IsZero(x, m)))
      && (forall x :: x in rows && Acceptable(x, m) ==> x in out)
  {
    var kept := DropNegative(rows, m);
    DropNegativeFacts(rows, m);
    if RejectsZero(m) {
      DropZeroFacts(kept, m);
      SubsequenceMembers(DropZero(kept, m), kept);
      SubsequenceTrans(CleanColumn(rows, m), kept, rows);
    }
  }

  /** `_clean_monetary_values` over the columns ms, those the table has. */
  function CleanMoney(rows: seq<Record>, schema: Schema, ms: seq<Money>): seq<Record>
    decreases |ms|
  {
    if ms == [] then rows
    else
      var prev := CleanMoney(rows, schema, ms[..|ms| - 1]);
      var m := ms[|ms| - 1];
      if Present(schema, m) then CleanColumn(prev, m) else prev
  }

  /** After the monetary steps no present column of ms holds a negative
      value, and the amount columns hold no zero; rows are only deleted,
      order kept, and a row acceptable in every present column survives. */
  lemma {:induction false} CleanMoneyFacts(rows: seq<Record>, schema: Schema, ms: seq<Money>)
    ensures var out := CleanMoney(rows, schema, ms);
      && IsSubsequence(out, rows)
      && (forall m, x :: m in ms && Present(schema, m) && x in out ==>
            !IsNegative(x, m) && (RejectsZero(m) ==> !IsZero(x, m)))
      && (forall x :: x in rows && (forall m :: m in ms && Present(schema, m) ==> Acceptable(x, m)) ==> x in out)
    decreases |ms|
  {
    if ms == [] {
      SubsequenceRefl(rows);
    } else {
      var init := ms[..|ms| - 1];
      var m := ms[|ms| - 1];
      var prev := CleanMoney(rows, schema, init);
      CleanMoneyFacts(rows, schema, init);
      assert ms == init + [m];
      if Present(schema, m) {
        CleanColumnFacts(prev, m);
        SubsequenceMembers(CleanColumn(prev, m), prev);
        SubsequenceTrans(CleanColumn(prev, m), prev, rows);
      }
    }
  }

  // ------------------------------------------------------------ categories

  /** The product-category replacements, applied in this order. */
  const CategoryMapping: seq<(string, string)> := [
    ("Electronic", "Electronics"), ("Cloth", "Clothing"), ("Clothes", "Clothing"),
    ("Book", "Books"), ("Sport", "Sports"),
    ("Home Garden", "Home & Garden"), ("Home&Garden", "Home & Garden")
  ]

  /** `replace(old, new)` on one value: exact matches only. */
  function ReplaceValue(v: string, pair: (string, string)): string
  {
    if v == pair.0 then pair.1 else v
  }

  /** The replacements applied one after another, as the loop of `_standardize_text_fields` does. */
  function ApplyMapping(v: string, pairs: seq<(string, string)>): string
    decreases |pairs|
  {
    if pairs == [] then v else ReplaceValue(ApplyMapping(v, pairs[..|pairs| - 1]), pairs[|pairs| - 1])
  }

  /** v is none of the keys. */
  predicate NoKey(v: string, pairs: seq<(string, string)>)
  {
    forall i :: 0 <= i < |pairs| ==> pairs[i].0 != v
  }

  /** The reference reading: look the value up once, first key wins. */
  function Lookup(v: string, pairs: seq<(string, string)>): (w: string)
    ensures NoKey(v, pairs) ==> w == v
    ensures !NoKey(v, pairs) ==> exists i :: 0 <= i < |pairs| && w == pairs[i].1
    ensures w == v || exists i :: 0 <= i < |pairs| && w == pairs[i].1
  {
    if pairs == [] then v
    else if v == pairs[0].0 then pairs[0].1
    else
      var w := Lookup(v, pairs[1..]);
      assert forall i :: 0 <= i < |pairs[1..]| ==> pairs[1..][i] == pairs[i + 1];
      assert !NoKey(v, pairs) ==> !NoKey(v, pairs[1..]) by {
        if !NoKey(v, pairs) {
          var i :| 0 <= i < |pairs| && pairs[i].0 == v;
          assert pairs[1..][i - 1].0 == v;
        }
      }
      assert (exists i :: 0 <= i < |pairs[1..]| && w == pairs[1..][i].1) ==> exists i :: 0 <= i < |pairs| && w == pairs[i].1 by {
        if exists i :: 0 <= i < |pairs[1..]| && w == pairs[1..][i].1 {
          var i :| 0 <= i < |pairs[1..]| && w == pairs[1..][i].1;
          assert w == pairs[i + 1].1;
        }
      }
      w
  }

  /** No replacement produces a value that a replacement looks for. */
  predicate OutputsAreNotKeys(pairs: seq<(string, string)>)
  {
    forall i, j :: 0 <= i < |pairs| && 0 <= j < |pairs| ==> pairs[i].1 != pairs[j].0
  }

  lemma MappingOutputsAreNotKeys()
    ensures OutputsAreNotKeys(CategoryMapping)
  {
    var m := CategoryMapping;
    forall i, j | 0 <= i < |m| && 0 <= j < |m| ensures m[i].1 != m[j].0 {
      assert |m[i].1| != |m[j].0| || m[i].1[0] != m[j].0[0];
    }
  }

  lemma OutputsAreNotKeysPrefix(pairs: seq<(string, string)>, n: nat)
    requires OutputsAreNotKeys(pairs) && n <= |pairs|
    ensures OutputsAreNotKeys(pairs[..n])
  {
  }

  /** When no output is a key, the sequential replacements equal the single
      lookup. */
  lemma {:induction false} SequentialIsLookup(v: string, pairs: seq<(string, string)>)
    requires OutputsAreNotKeys(pairs)
    ensures ApplyMapping(v, pairs) == Lookup(v, pairs)
    decreases |pairs|
  {
    if pairs != [] {
      var init := pairs[..|pairs| - 1];
      var last := pairs[|pairs| - 1];
      assert pairs == init + [last];
      OutputsAreNotKeysPrefix(pairs, |pairs| - 1);
      SequentialIsLookup(v, init);
      LookupSnoc(v, init, last);
      if !NoKey(v, init) {
        var w := Lookup(v, init);
        var i :| 0 <= i < |init| && w == init[i].1;
        OutputNotLaterKey(pairs, i);
      }
    }
  }

  lemma OutputNotLaterKey(pairs: seq<(string, string)>, i: int)
    requires OutputsAreNotKeys(pairs) && 0 <= i < |pairs|
    ensures pairs[..|pairs| - 1] + [pairs[|pairs| - 1]] == pairs
    ensures pairs[i].1 != pairs[|pairs| - 1].0
  {
  }

  lemma {:induction false} LookupSnoc(v: string, init: seq<(string, string)>, last: (string, string))
    ensures Lookup(v, init + [last]) == if NoKey(v, init) then ReplaceValue(v, last) else Lookup(v, init)
    decreases |init|
  {
    if init != [] {
      assert (init + [last])[1..] == init[1..] + [last];
      LookupSnoc(v, init[1..], last);
      if init[0].0 != v {
        assert NoKey(v, init) <==> NoKey(v, init[1..]) by {
          forall i | 0 <= i < |init[1..]| ensures init[1..][i] == init[i + 1] { }
        }
      }
    } else {
      assert [last][1..] == [];
    }
  }

  /** A looked-up value is left alone by a second lookup. */
  lemma LookupIdempotent(v: string, pairs: seq<(string, string)>)
    requires OutputsAreNotKeys(pairs)
    ensures Lookup(Lookup(v, pairs), pairs) == Lookup(v, pairs)
  {
    var w := Lookup(v, pairs);
    if w != v {
      var i :| 0 <= i < |pairs| && w == pairs[i].1;
    }
  }

  /** Applying the category mapping twice equals applying it once, and it
      changes exactly the seven keys. */
  lemma CategoryMappingIdempotent(v: string)
    ensures ApplyMapping(ApplyMapping(v, CategoryMapping), CategoryMapping) == ApplyMapping(v, CategoryMapping)
    ensures NoKey(v, CategoryMapping) ==> ApplyMapping(v, CategoryMapping) == v
  {
    MappingOutputsAreNotKeys();
    SequentialIsLookup(v, CategoryMapping);
    SequentialIsLookup(ApplyMapping(v, CategoryMapping), CategoryMapping);
    LookupIdempotent(v, CategoryMapping);
  }

  /** The category after `astype(str)` (a missing value becomes "nan",
      title-cased "Nan") and the replacements of pairs. */
  function StandardCategory(c: Option<string>, pairs: seq<(string, string)>): string
  {
    ApplyMapping(if c.Some? then c.value else "Nan", pairs)
  }

  /** The replacements of pairs applied to the category column, when the
      table has one. */
  function MapCategories(rows: seq<Record>, schema: Schema, pairs: seq<(string, string)>): (out: seq<Record>)
    ensures |out| == |rows|
    ensures forall i :: 0 <= i < |rows| ==>
      out[i] == if schema.hasCategory then rows[i].(category := Some(StandardCategory(rows[i].category, pairs))) else rows[i]
  {
    seq(|rows|, i requires 0 <= i < |rows| =>
      if schema.hasCategory then rows[i].(category := Some(StandardCategory(rows[i].category, pairs))) else rows[i])
  }

  /** `replace(old, new)` on the category column. */
  function ReplaceCategory(rows: seq<Record>, pair: (string, string)): (out: seq<Record>)
    ensures |out| == |rows|
    ensures forall i :: 0 <= i < |rows| ==>
      out[i] == rows[i].(category := if rows[i].category.Some? then Some(ReplaceValue(rows[i].category.value, pair)) else None)
  {
    seq(|rows|, i requires 0 <= i < |rows| =>
      rows[i].(category := if rows[i].category.Some? then Some(ReplaceValue(rows[i].category.value, pair)) else None))
  }

  /** One more replacement on the mapped column is the mapping by one
      more pair, so the loop of `_standardize_text_fields` computes `MapCategories`. */
  lemma MapCategoriesSnoc(rows: seq<Record>, schema: Schema, pairs: seq<(string, string)>, pair: (string, string))
    requires schema.hasCategory
    ensures MapCategories(rows, schema, pairs + [pair]) == ReplaceCategory(MapCategories(rows, schema, pairs), pair)
  {
    assert (pairs + [pair])[..|pairs|] == pairs;
  }

  // ------------------------------------------------------------ outliers

  /** `np.where(v > upper, upper, v)` and then `np.where(v < lower, lower, v)`. */
  function Cap(v: real, lower: real, upper: real): (c: real)
    ensures lower <= upper ==> lower <= c <= upper
    ensures lower <= v <= upper ==> c == v
    ensures lower <= upper && v < lower ==> c == lower
    ensures lower <= upper && v > upper ==> c == upper
  {
    var w := if v > upper then upper else v;
    if w < lower then lower else w
  }

  predicate IsOutlier(v: Option<real>, lower: real, upper: real)
  {
    v.Some? && (v.value < lower || v.value > upper)
  }

  function CapValue(v: Option<real>, lower: real, upper: real): Option<real>
  {
    if v.Some? then Some(Cap(v.value, lower, upper)) else None
  }

  function CapRow(r: Record, m: Money, lower: real, upper: real): Record
  {
    match m
    case TransactionAmount => r.(amount := CapValue(r.amount, lower, upper))
    case TotalAmount => r.(total := CapValue(r.total, lower, upper))
    case UnitPrice => r.(unitPrice := CapValue(r.unitPrice, lower, upper))
  }

  /** Capping one column, done only when the column has an outlier. */
  function CapColumn(rows: seq<Record>, m: Money, lower: real, upper: real): seq<Record>
  {
    if exists r :: r in rows && IsOutlier(Value(r, m), lower, upper)
    then seq(|rows|, i requires 0 <= i < |rows| => CapRow(rows[i], m, lower, upper))
    else rows
  }

  /** The outlier test only skips work: with or without it every row is the
      capped row, a value inside the bounds stays, and a missing one stays
      missing. */
  lemma CapColumnIsRowwise(rows: seq<Record>, m: Money, lower: real, upper: real)
    ensures var out := CapColumn(rows, m, lower, upper);
      |out| == |rows| && forall i :: 0 <= i < |rows| ==> out[i] == CapRow(rows[i], m, lower, upper)
  {
    if !exists r :: r in rows && IsOutlier(Value(r, m), lower, upper) {
      forall i | 0 <= i < |rows| ensures rows[i] == CapRow(rows[i], m, lower, upper) {
        assert rows[i] in rows;
      }
    }
  }

  /** The bounds for the two capped columns. */
  datatype Bounds = Bounds(lower: real, upper: real)

  /** `_handle_outliers`: transaction_amount, then total_amount if present. */
  function HandleOutliers(rows: seq<Record>, schema: Schema, amountBounds: Bounds, totalBounds: Bounds): seq<Record>
  {
    var a := CapColumn(rows, TransactionAmount, amountBounds.lower, amountBounds.upper);
    if schema.hasTotal then CapColumn(a, TotalAmount, totalBounds.lower, totalBounds.upper) else a
  }

  // ------------------------------------------------------------ derived features

  /** `get_season` exactly as written: membership tests in this order. */
  function GetSeason(month: int): Season
  {
    if month in [12, 1, 2] then Winter
    else if month in [3, 4, 5] then Spring
    else if month in [6, 7, 8] then Summer
    else Fall
  }

  /** The seasons as quarters of the year starting in December. */
  const SeasonByQuarter: seq<Season> := [Winter, Spring, Summer, Fall]

  /** On the months 1..12 the cascade is the quarter of (month mod 12). */
  lemma SeasonIsQuarter(month: int)
    requires 1 <= month <= 12
    ensures GetSeason(month) == SeasonByQuarter[(month % 12) / 3]
  {
  }

  /** The left edges of the amount bins; the last bin is unbounded. */
  const AmountEdges: seq<real> := [0.0, 50.0, 100.0, 250.0, 500.0, 1000.0]

  const Bands: seq<AmountBand> := [VeryLow, Low, Medium, High, VeryHigh, Premium]

  /** `pd.cut(right=False)` on the six half-open bins: no band for a
      missing or negative amount. */
  function AmountCategory(a: Option<real>): Option<AmountBand>
  {
    if a.None? || a.value < 0.0 then None
    else if a.value < 50.0 then Some(VeryLow)
    else if a.value < 100.0 then Some(Low)
    else if a.value < 250.0 then Some(Medium)
    else if a.value < 500.0 then Some(High)
    else if a.value < 1000.0 then Some(VeryHigh)
    else Some(Premium)
  }

  /** Band k holds exactly the amounts in [edge k, edge k+1). */
  lemma AmountCategoryBins(a: real, k: int)
    requires 0 <= k < |Bands|
    ensures AmountCategory(Some(a)) == Some(Bands[k]) <==>
      AmountEdges[k] <= a && (k + 1 == |Bands| || a < AmountEdges[k + 1])
  {
  }

  /** The derived columns of one row; `monthOf` is the calendar month of a
      day number. A missing date has no month (NaN), which none of
      `get_season`'s lists holds, so it falls through to Fall: every row
      gets a season, and nothing but the derived columns changes. */
  function DeriveRow(r: Record, monthOf: int -> int): (out: Record)
    ensures out.season.Some?
    ensures r.date.None? ==> out.season == Some(Fall)
    ensures out.(season := r.season, amountCategory := r.amountCategory) == r
  {
    r.(season := Some(if r.date.Some? then GetSeason(monthOf(r.date.value)) else Fall),
       amountCategory := AmountCategory(r.amount))
  }

  function DeriveFeatures(rows: seq<Record>, monthOf: int -> int): (out: seq<Record>)
    ensures |out| == |rows|
    ensures forall i :: 0 <= i < |rows| ==> out[i] == DeriveRow(rows[i], monthOf)
  {
    seq(|rows|, i requires 0 <= i < |rows| => DeriveRow(rows[i], monthOf))
  }

  // ------------------------------------------------------------ the pipeline

  /** What the cleaning steps take from outside the table: the fill values,
      the clock reading, the IQR bounds of the two capped columns, and the
      calendar month of a day number. */
  datatype CleaningInputs = CleaningInputs(
    fills: Fills, now: int, amountBounds: Bounds, totalBounds: Bounds, monthOf: int -> int)

  /** The table after the steps that delete rows or change their
      monetary values, before the category, outlier and derived steps. */
  function Filtered(rows: seq<Record>, schema: Schema, inputs: CleaningInputs): seq<Record>
  {
    var a := HandleMissing(rows, schema, inputs.fills);
    var b := RemoveDuplicates(a);
    var c := DropFutureDates(b, inputs.now);
    CleanMoney(c, schema, MoneyColumns)
  }

  /** `clean_customer_data` on the copied raw table. */
  function CleanAll(rows: seq<Record>, schema: Schema, inputs: CleaningInputs): seq<Record>
  {
    var d := Filtered(rows, schema, inputs);
    var e := MapCategories(d, schema, CategoryMapping);
    var f := HandleOutliers(e, schema, inputs.amountBounds, inputs.totalBounds);
    DeriveFeatures(f, inputs.monthOf)
  }

  /** The schema once the derived columns exist. */
  function CleanedSchema(schema: Schema): Schema
  {
    schema.(hasDerived := true)
  }

  /** A row the three validation checks accept. */
  predicate Sound(r: Record, schema: Schema, now: int)
  {
    && Complete(r)
    && !IsFuture(r, now)
    && !IsNegative(r, TransactionAmount)
    && (schema.hasTotal ==> !IsNegative(r, TotalAmount))
  }

  /** The row-deleting steps leave only sound rows. */
  lemma FilteredIsSound(rows: seq<Record>, schema: Schema, inputs: CleaningInputs)
    ensures forall x :: x in Filtered(rows, schema, inputs) ==>
      Sound(x, schema, inputs.now) && Filled(x, schema, inputs.fills)
  {
    var a := HandleMissing(rows, schema, inputs.fills);
    var b := RemoveDuplicates(a);
    var c := DropFutureDates(b, inputs.now);
    var d := CleanMoney(c, schema, MoneyColumns);
    HandleMissingFacts(rows, schema, inputs.fills);
    RemoveDuplicatesFacts(a);
    SubsequenceMembers(b, a);
    FutureDatesGone(b, inputs.now);
    SubsequenceMembers(c, b);
    CleanMoneyFacts(c, schema, MoneyColumns);
    SubsequenceMembers(d, c);
    assert TransactionAmount in MoneyColumns && TotalAmount in MoneyColumns;
  }

  /** Capping with a non-negative upper bound never makes a non-negative
      value negative. */
  lemma CapKeepsSign(v: real, lower: real, upper: real)
    requires v >= 0.0 && upper >= 0.0
    ensures Cap(v, lower, upper) >= 0.0
  {
  }

  /** The category, outlier and derived steps keep a row sound. */
  lemma LaterStepsKeepSound(r: Record, schema: Schema, inputs: CleaningInputs)
    requires Sound(r, schema, inputs.now)
    requires inputs.amountBounds.upper >= 0.0 && inputs.totalBounds.upper >= 0.0
    ensures var e := if schema.hasCategory then r.(category := Some(StandardCategory(r.category, CategoryMapping))) else r;
      var f := CapRow(e, TransactionAmount, inputs.amountBounds.lower, inputs.amountBounds.upper);
      var g := if schema.hasTotal then CapRow(f, TotalAmount, inputs.totalBounds.lower, inputs.totalBounds.upper) else f;
      var out := DeriveRow(g, inputs.monthOf);
      && Sound(out, schema, inputs.now)
      && (Filled(r, schema, inputs.fills) && inputs.fills.total.Some? && inputs.fills.unitPrice.Some? ==>
            MissingInRow(out, CleanedSchema(schema)) == 0)
  {
    CapKeepsSign(r.amount.value, inputs.amountBounds.lower, inputs.amountBounds.upper);
    if schema.hasTotal && r.total.Some? {
      CapKeepsSign(r.total.value, inputs.totalBounds.lower, inputs.totalBounds.upper);
    }
  }

  // ------------------------------------------------------------ validation

  function Count(b: bool): nat { if b then 1 else 0 }

  /** The missing values of one row, over the columns the table has. */
  function MissingInRow(r: Record, schema: Schema): nat
  {
    Count(r.customerId.None?) + Count(r.date.None?) + Count(r.amount.None?)
    + Count(schema.hasTotal && r.total.None?) + Count(schema.hasUnitPrice && r.unitPrice.None?)
    + Count(schema.hasCategory && r.category.None?)
    + Count(schema.hasDerived && r.season.None?) + Count(schema.hasDerived && r.amountCategory.None?)
  }

  /** `isnull().sum().sum()`. */
  function MissingValues(rows: seq<Record>, schema: Schema): nat
  {
    if rows == [] then 0 else MissingInRow(rows[0], schema) + MissingValues(rows[1..], schema)
  }

  /** The table has no missing value exactly when no row has one. */
  lemma {:induction false} MissingValuesZero(rows: seq<Record>, schema: Schema)
    ensures MissingValues(rows, schema) == 0 <==> forall r :: r in rows ==> MissingInRow(r, schema) == 0
  {
    if rows != [] {
      MissingValuesZero(rows[1..], schema);
      assert forall r :: r in rows <==> r == rows[0] || r in rows[1..];
    }
  }

  /** `duplicated().sum()`: the rows equal to an earlier row. */
  function Duplicated(rows: seq<Record>): nat
    decreases |rows|
  {
    if rows == [] then 0
    else Duplicated(rows[..|rows| - 1]) + Count(rows[|rows| - 1] in rows[..|rows| - 1])
  }

  /** Repeated rows are exactly what exact de-duplication removes. */
  lemma {:induction false} DuplicatedIsRemoved(rows: seq<Record>)
    ensures Duplicated(rows) == 0 <==> forall i, j :: 0 <= i < j < |rows| ==> rows[i] != rows[j]
    decreases |rows|
  {
    if rows != [] {
      var init := rows[..|rows| - 1];
      DuplicatedIsRemoved(init);
      assert forall i :: 0 <= i < |init| ==> init[i] == rows[i];
    }
  }

  /** The dictionary `validate_processed_data` returns, or False when there
      is no processed table. */
  datatype Validation =
    | NoProcessedData
    | Report(totalRecords: nat, missingValues: nat, duplicateRecords: nat,
             dataTypesConsistent: bool, dateRangesValid: bool, monetaryValuesValid: bool,
             validationPassed: bool)

  function Validate(rows: Option<seq<Record>>, schema: Schema, now: int): (v: Validation)
    ensures v.NoProcessedData? <==> rows.None?
    ensures v.Report? ==> v.totalRecords == |rows.value|
  {
    if rows.None? then NoProcessedData
    else
      var t := rows.value;
      var consistent := forall r :: r in t ==> Complete(r);
      var datesValid := !exists r :: r in t && IsFuture(r, now);
      var moneyValid := (!exists r :: r in t && IsNegative(r, TransactionAmount))
        && (schema.hasTotal ==> !exists r :: r in t && IsNegative(r, TotalAmount));
      var missing := MissingValues(t, schema);
      Report(|t|, missing, Duplicated(t), consistent, datesValid, moneyValid,
        consistent && datesValid && moneyValid && missing == 0)
  }

  /** The overall flag holds exactly when no value is missing, no date is
      after `now` and no transaction or total amount is negative. */
  lemma ValidationPassedMeans(t: seq<Record>, schema: Schema, now: int)
    ensures Validate(Some(t), schema, now).validationPassed <==>
      && (forall r :: r in t ==> MissingInRow(r, schema) == 0)
      && (forall r :: r in t ==> Sound(r, schema, now))
  {
    MissingValuesZero(t, schema);
  }

  /** Every row of the cleaned table is sound, and has no gap when the
      numeric columns had fill values. */
  lemma CleanedRows(rows: seq<Record>, schema: Schema, inputs: CleaningInputs, later: int)
    requires later >= inputs.now
    requires inputs.amountBounds.upper >= 0.0 && inputs.totalBounds.upper >= 0.0
    ensures forall x :: x in CleanAll(rows, schema, inputs) ==>
      && Sound(x, schema, later)
      && (inputs.fills.total.Some? && inputs.fills.unitPrice.Some? ==> MissingInRow(x, CleanedSchema(schema)) == 0)
  {
    var d := Filtered(rows, schema, inputs);
    var e := MapCategories(d, schema, CategoryMapping);
    var ab, tb := inputs.amountBounds, inputs.totalBounds;
    var out := CleanAll(rows, schema, inputs);
    FilteredIsSound(rows, schema, inputs);
    var f1 := CapColumn(e, TransactionAmount, ab.lower, ab.upper);
    CapColumnIsRowwise(e, TransactionAmount, ab.lower, ab.upper);
    if schema.hasTotal {
      CapColumnIsRowwise(f1, TotalAmount, tb.lower, tb.upper);
    }
    forall x | x in out
      ensures Sound(x, schema, later)
      ensures inputs.fills.total.Some? && inputs.fills.unitPrice.Some? ==> MissingInRow(x, CleanedSchema(schema)) == 0
    {
      var i :| 0 <= i < |out| && out[i] == x;
      assert d[i] in d;
      LaterStepsKeepSound(d[i], schema, inputs);
    }
  }

  /** A table that went through the whole pipeline passes the critical
      field, date and monetary checks at any later clock reading, provided
      the capping bounds have a non-negative upper end (bounds taken from
      non-negative amounts have). */
  lemma CleanedPassesChecks(rows: seq<Record>, schema: Schema, inputs: CleaningInputs, later: int)
    requires later >= inputs.now
    requires inputs.amountBounds.upper >= 0.0 && inputs.totalBounds.upper >= 0.0
    ensures var v := Validate(Some(CleanAll(rows, schema, inputs)), CleanedSchema(schema), later);
      v.dataTypesConsistent && v.dateRangesValid && v.monetaryValuesValid
  {
    CleanedRows(rows, schema, inputs, later);
  }

  /** When the total and unit-price columns also had a median to fill
      with, the cleaned table passes validation outright. */
  lemma CleanedPassesValidation(rows: seq<Record>, schema: Schema, inputs: CleaningInputs, later: int)
    requires later >= inputs.now
    requires inputs.amountBounds.upper >= 0.0 && inputs.totalBounds.upper >= 0.0
    requires inputs.fills.total.Some? && inputs.fills.unitPrice.Some?
    ensures Validate(Some(CleanAll(rows, schema, inputs)), CleanedSchema(schema), later).validationPassed
  {
    var out := CleanAll(rows, schema, inputs);
    CleanedRows(rows, schema, inputs, later);
    ValidationPassedMeans(out, CleanedSchema(schema), later);
  }
}
