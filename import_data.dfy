/** The one-off import script's reading of a CSV row. Its `parseIntSafe`,
    `parseFloatSafe` and `parseTags` are the loader's, character for
    character, so they are used from `CsvParser`; its `normalizeRecord`
    accepts only the first two spellings of every column. */
module ImportData {
  import opened Wrappers
  import opened Text
  import opened Records
  import CP = CsvParser

  /** `normalizeRecord(record, index)` of the import script: the loader's,
      without the further spellings of price, discount, final amount,
      salesperson id and employee name. */
  function NormalizeRecord(row: CP.Row, index: nat, parseFloat: string -> Option<real>): Transaction {
    Transaction(
      transactionId := CP.FirstTruthy(row, CP.TransactionIdKeys).GetOr(CP.FallbackId(index)),
      customerId := CP.Field(row, CP.CustomerIdKeys),
      customerName := CP.Field(row, CP.CustomerNameKeys),
      phoneNumber := CP.Field(row, CP.PhoneNumberKeys),
      gender := CP.Field(row, CP.GenderKeys),
      age := CP.ParseIntSafe(CP.FirstTruthy(row, CP.AgeKeys)),
      customerRegion := CP.Field(row, CP.CustomerRegionKeys),
      customerType := CP.Field(row, CP.CustomerTypeKeys),
      productId := CP.Field(row, CP.ProductIdKeys),
      productName := CP.Field(row, CP.ProductNameKeys),
      brand := CP.Field(row, CP.BrandKeys),
      productCategory := CP.Field(row, CP.ProductCategoryKeys),
      tags := CP.ParseTags(CP.TagText(CP.Field(row, CP.TagsKeys))),
      quantity := CP.ParseIntSafe(CP.FirstTruthy(row, CP.QuantityKeys)),
      pricePerUnit := CP.ParseFloatSafe(CP.FirstTruthy(row, CP.PriceKeys), parseFloat),
      discountPercentage := CP.ParseFloatSafe(CP.FirstTruthy(row, CP.DiscountKeys), parseFloat),
      totalAmount := CP.ParseFloatSafe(CP.FirstTruthy(row, CP.TotalAmountKeys), parseFloat),
      finalAmount := CP.ParseFloatSafe(CP.FirstTruthy(row, CP.FinalAmountKeys), parseFloat),
      date := CP.Field(row, CP.DateKeys),
      paymentMethod := CP.Field(row, CP.PaymentMethodKeys),
      orderStatus := CP.Field(row, CP.OrderStatusKeys),
      deliveryType := CP.Field(row, CP.DeliveryTypeKeys),
      storeId := CP.Field(row, CP.StoreIdKeys),
      storeLocation := CP.Field(row, CP.StoreLocationKeys),
      salespersonId := CP.Field(row, CP.SalespersonIdKeys),
      employeeName := CP.Field(row, CP.EmployeeNameKeys))
  }

  /** No column of `keys` has text in the row. */
  predicate NoneHasText(row: CP.Row, keys: seq<string>) {
    forall i :: 0 <= i < |keys| ==> !CP.HasText(row, keys[i])
  }

  /** The row has text in none of the spellings only the loader accepts. */
  predicate NoExtraSpellings(row: CP.Row) {
    NoneHasText(row, CP.PriceExtraKeys) && NoneHasText(row, CP.DiscountExtraKeys) &&
    NoneHasText(row, CP.FinalAmountExtraKeys) && NoneHasText(row, CP.SalespersonIdExtraKeys) &&
    NoneHasText(row, CP.EmployeeNameExtraKeys)
  }

  /** Spellings without text add nothing to a list of spellings. */
  lemma ExtraAddsNothing(row: CP.Row, keys: seq<string>, extra: seq<string>)
    requires NoneHasText(row, extra)
    ensures CP.FirstTruthy(row, keys + extra) == CP.FirstTruthy(row, keys)
  {
    CP.FirstTruthySpec(row, extra);
    CP.FirstTruthyAppend(row, keys, extra);
  }

  /** On a row without the loader's further spellings, the import script and
      the loader produce the same record. */
  lemma AgreesWithLoader(row: CP.Row, index: nat, parseFloat: string -> Option<real>)
    requires NoExtraSpellings(row)
    ensures NormalizeRecord(row, index, parseFloat) == CP.NormalizeRecord(row, index, parseFloat)
  {
    ExtraAddsNothing(row, CP.PriceKeys, CP.PriceExtraKeys);
    ExtraAddsNothing(row, CP.DiscountKeys, CP.DiscountExtraKeys);
    ExtraAddsNothing(row, CP.FinalAmountKeys, CP.FinalAmountExtraKeys);
    ExtraAddsNothing(row, CP.SalespersonIdKeys, CP.SalespersonIdExtraKeys);
    ExtraAddsNothing(row, CP.EmployeeNameKeys, CP.EmployeeNameExtraKeys);
  }

  /** A row whose final amount is only under `Net Amount`: the loader reads
      it, the import script stores 0. */
  lemma NetAmountOnlyInLoader(row: CP.Row, index: nat, parseFloat: string -> Option<real>, x: real)
    requires NoneHasText(row, CP.FinalAmountKeys)
    requires CP.HasText(row, CP.FinalAmountExtraKeys[0])
    requires parseFloat(RemoveAll(row[CP.FinalAmountExtraKeys[0]], {','})) == Some(x) && x != 0.0
    ensures CP.NormalizeRecord(row, index, parseFloat).finalAmount == x
    ensures NormalizeRecord(row, index, parseFloat).finalAmount == 0.0
  {
    CP.FirstTruthySpec(row, CP.FinalAmountKeys);
    CP.FirstTruthySpec(row, CP.FinalAmountKeys + CP.FinalAmountExtraKeys);
    assert (CP.FinalAmountKeys + CP.FinalAmountExtraKeys)[2] == CP.FinalAmountExtraKeys[0];
  }

  /** A row that names its salesperson only under `Sales Person Name`: the
      loader keeps the name, the import script leaves it empty. */
  lemma SalesPersonNameOnlyInLoader(row: CP.Row, index: nat, parseFloat: string -> Option<real>)
    requires NoneHasText(row, CP.EmployeeNameKeys)
    requires CP.HasText(row, CP.EmployeeNameExtraKeys[0])
    ensures CP.NormalizeRecord(row, index, parseFloat).employeeName == row[CP.EmployeeNameExtraKeys[0]] != ""
    ensures NormalizeRecord(row, index, parseFloat).employeeName == ""
  {
    CP.FirstTruthySpec(row, CP.EmployeeNameKeys);
    CP.FirstTruthySpec(row, CP.EmployeeNameKeys + CP.EmployeeNameExtraKeys);
    assert (CP.EmployeeNameKeys + CP.EmployeeNameExtraKeys)[2] == CP.EmployeeNameExtraKeys[0];
  }
}
