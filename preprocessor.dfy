/** The `CustomerDataPreprocessor` object: the raw table it loaded and the
    processed copy its cleaning steps rewrite in place, step by step, as
    `_handle_missing_values` through `_create_derived_features` reassign
    `self.processed_data`. */
module Preprocessor {
  import opened Wrappers
  import opened Seqs
  import opened PreprocessingRules

  /** The monetary columns the validation checks for negative values. */
  const ValidatedMoney: seq<Money> := [TransactionAmount, TotalAmount]

  class CustomerDataPreprocessor {
    var rawData: Option<seq<Record>>
    var processedData: Option<seq<Record>>
    /** The columns of the raw table. */
    var schema: Schema

    /** The object after `load_data`: the loaded table (None when loading
        failed), nothing processed yet. */
    constructor(raw: Option<seq<Record>>, columns: Schema)
      ensures rawData == raw && processedData == None && schema == columns
    {
      rawData := raw;
      processedData := None;
      schema := columns;
    }

    /** `_handle_missing_values`: the critical fields are dropped one at a
        time, then the other columns are filled. */
    method HandleMissingValues(fills: Fills)
      requires processedData.Some?
      modifies this
      ensures processedData == Some(HandleMissing(old(processedData.value), schema, fills))
      ensures rawData == old(rawData) && schema == old(schema)
    {
      ghost var start := processedData.value;
      var i := 0;
      while i < |CriticalFields|
        invariant 0 <= i <= |CriticalFields|
        invariant processedData == Some(DropMissingFields(start, CriticalFields[..i]))
        invariant rawData == old(rawData) && schema == old(schema)
      {
        assert CriticalFields[..i + 1][..i] == CriticalFields[..i];
        processedData := Some(DropMissing(processedData.value, CriticalFields[i]));
        i := i + 1;
      }
      assert CriticalFields[..i] == CriticalFields;
      processedData := Some(FillMissing(processedData.value, schema, fills));
    }

    /** `_remove_duplicates`: exact duplicates, then repeated
        (customer, date, amount) keys, first occurrence kept. */
    method RemoveDuplicateRows()
      requires processedData.Some?
      modifies this
      ensures processedData == Some(RemoveDuplicates(old(processedData.value)))
      ensures rawData == old(rawData) && schema == old(schema)
    {
      processedData := Some(DropDuplicates(processedData.value, RowItself));
      processedData := Some(DropDuplicates(processedData.value, TxKey));
    }

    /** `_clean_date_columns`: rows dated after `now` are removed. */
    method CleanDateColumns(now: int)
      requires processedData.Some?
      modifies this
      ensures processedData == Some(DropFutureDates(old(processedData.value), now))
      ensures rawData == old(rawData) && schema == old(schema)
    {
      processedData := Some(DropFutureDates(processedData.value, now));
    }

    /** `_clean_monetary_values`: for each monetary column the table has,
        negative values go, then zero values for the two amount columns. */
    method CleanMonetaryValues()
      requires processedData.Some?
      modifies this
      ensures processedData == Some(CleanMoney(old(processedData.value), schema, MoneyColumns))
      ensures rawData == old(rawData) && schema == old(schema)
    {
      ghost var start := processedData.value;
      var i := 0;
      while i < |MoneyColumns|
        invariant 0 <= i <= |MoneyColumns|
        invariant processedData == Some(CleanMoney(start, schema, MoneyColumns[..i]))
        invariant rawData == old(rawData) && schema == old(schema)
      {
        var m := MoneyColumns[i];
        assert MoneyColumns[..i + 1][..i] == MoneyColumns[..i];
        if Present(schema, m) {
          processedData := Some(DropNegative(processedData.value, m));
          if RejectsZero(m) {
            processedData := Some(DropZero(processedData.value, m));
          }
        }
        i := i + 1;
      }
      assert MoneyColumns[..i] == MoneyColumns;
    }

    /** `_standardize_text_fields` on the category column: missing values
        become the text "Nan", then the replacements are applied in turn. */
    method StandardizeTextFields()
      requires processedData.Some?
      modifies this
      ensures processedData == Some(MapCategories(old(processedData.value), schema, CategoryMapping))
      ensures rawData == old(rawData) && schema == old(schema)
    {
      if !schema.hasCategory {
        assert MapCategories(processedData.value, schema, CategoryMapping) == processedData.value;
        return;
      }
      ghost var start := processedData.value;
      processedData := Some(MapCategories(processedData.value, schema, []));
      var i := 0;
      while i < |CategoryMapping|
        invariant 0 <= i <= |CategoryMapping|
        invariant processedData == Some(MapCategories(start, schema, CategoryMapping[..i]))
        invariant rawData == old(rawData) && schema == old(schema)
      {
        MapCategoriesSnoc(start, schema, CategoryMapping[..i], CategoryMapping[i]);
        assert CategoryMapping[..i + 1] == CategoryMapping[..i] + [CategoryMapping[i]];
        processedData := Some(ReplaceCategory(processedData.value, CategoryMapping[i]));
        i := i + 1;
      }
      assert CategoryMapping[..i] == CategoryMapping;
    }

    /** `_handle_outliers`: transaction and total amounts capped to their
        IQR bounds. */
    method HandleOutlierValues(amountBounds: Bounds, totalBounds: Bounds)
      requires processedData.Some?
      modifies this
      ensures processedData == Some(HandleOutliers(old(processedData.value), schema, amountBounds, totalBounds))
      ensures rawData == old(rawData) && schema == old(schema)
    {
      processedData := Some(CapColumn(processedData.value, TransactionAmount, amountBounds.lower, amountBounds.upper));
      if schema.hasTotal {
        processedData := Some(CapColumn(processedData.value, TotalAmount, totalBounds.lower, totalBounds.upper));
      }
    }

    /** `_create_derived_features`: the season and amount band columns. */
    method CreateDerivedFeatures(monthOf: int -> int)
      requires processedData.Some?
      modifies this
      ensures processedData == Some(DeriveFeatures(old(processedData.value), monthOf))
      ensures rawData == old(rawData) && schema == old(schema)
    {
      processedData := Some(DeriveFeatures(processedData.value, monthOf));
    }

    /** `clean_customer_data`: None when nothing was loaded; otherwise a
        copy of the raw table runs through every step and is returned. */
    method CleanCustomerData(inputs: CleaningInputs) returns (r: Option<seq<Record>>)
      modifies this
      ensures rawData == old(rawData) && schema == old(schema)
      ensures rawData.None? ==> r == None && processedData == old(processedData)
      ensures rawData.Some? ==> r == Some(CleanAll(rawData.value, schema, inputs)) && processedData == r
    {
      if rawData.None? {
        return None;
      }
      processedData := rawData;
      HandleMissingValues(inputs.fills);
      RemoveDuplicateRows();
      CleanDateColumns(inputs.now);
      CleanMonetaryValues();
      StandardizeTextFields();
      HandleOutlierValues(inputs.amountBounds, inputs.totalBounds);
      CreateDerivedFeatures(inputs.monthOf);
      r := processedData;
    }

    /** `validate_processed_data` on the cleaned table, whose columns are
        the raw ones plus the derived ones: the critical fields are checked
        one by one, then the dates, then the monetary columns. */
    method ValidateProcessedData(now: int) returns (v: Validation)
      ensures v == Validate(processedData, CleanedSchema(schema), now)
    {
      if processedData.None? {
        return NoProcessedData;
      }
      var t := processedData.value;
      var consistent := true;
      var i := 0;
      while i < |CriticalFields|
        invariant 0 <= i <= |CriticalFields|
        invariant consistent <==> forall j, r :: 0 <= j < i && r in t ==> Has(r, CriticalFields[j])
      {
        if exists r :: r in t && !Has(r, CriticalFields[i]) {
          consistent := false;
        }
        i := i + 1;
      }
      assert consistent <==> forall r :: r in t ==> Complete(r) by {
        forall r | r in t ensures (forall j :: 0 <= j < 3 ==> Has(r, CriticalFields[j])) <==> Complete(r) {
          assert Has(r, CriticalFields[0]) && Has(r, CriticalFields[1]) && Has(r, CriticalFields[2]) ==> Complete(r);
        }
      }
      var datesValid := !exists r :: r in t && IsFuture(r, now);
      var moneyValid := true;
      var k := 0;
      while k < |ValidatedMoney|
        invariant 0 <= k <= |ValidatedMoney|
        invariant moneyValid <==> forall j, r :: 0 <= j < k && Present(schema, ValidatedMoney[j]) && r in t ==> !IsNegative(r, ValidatedMoney[j])
      {
        if Present(schema, ValidatedMoney[k]) && exists r :: r in t && IsNegative(r, ValidatedMoney[k]) {
          moneyValid := false;
        }
        k := k + 1;
      }
      assert moneyValid <==>
        && (!exists r :: r in t && IsNegative(r, TransactionAmount))
        && (schema.hasTotal ==> !exists r :: r in t && IsNegative(r, TotalAmount))
      by {
        assert ValidatedMoney[0] == TransactionAmount && ValidatedMoney[1] == TotalAmount;
      }
      var missing := MissingValues(t, CleanedSchema(schema));
      v := Report(|t|, missing, Duplicated(t), consistent, datesValid, moneyValid,
        consistent && datesValid && moneyValid && missing == 0);
    }
  }
}
