/** Reading one CSV row into a sales record, as the in-memory loader does:
    safe integer and float parsing, tag lists, and the column spellings each
    field accepts. */
module CsvParser {
  import opened Wrappers
  import opened Text
  import opened Numbers
  import opened Seqs
  import opened Records

  /** A CSV row read with a header line: column name to cell text. A column
      the file does not have is missing from the map (`undefined`). */
  type Row = map<string, string>

  /** A cell as a helper receives it: `None` for `undefined`, else its text.
      A CSV cell is never `null`. */
  type Cell = Option<string>

  /** `Boolean(row[k])`: the column is there and its text is not empty. */
  predicate HasText(row: Row, k: string) {
    k in row && row[k] != ""
  }

  // ---------------------------------------------------------------------
  // First truthy alias

  /** `row[k1] || row[k2] || ...`: the text of the first column that has
      text, or `None` when none has. (When none has, JavaScript yields the
      last column's `undefined` or `''`; every consumer treats both as
      missing.) */
  function FirstTruthy(row: Row, keys: seq<string>): (r: Cell)
    decreases |keys|
  {
    if |keys| == 0 then None
    else if HasText(row, keys[0]) then Some(row[keys[0]])
    else FirstTruthy(row, keys[1..])
  }

  /** The first column with text wins; with no such column the result is
      missing, and a found value is never empty. */
  lemma {:induction false} FirstTruthySpec(row: Row, keys: seq<string>)
    ensures forall i ::
      (0 <= i < |keys| && HasText(row, keys[i]) && forall j :: 0 <= j < i ==> !HasText(row, keys[j]))
      ==> FirstTruthy(row, keys) == Some(row[keys[i]])
    ensures (forall i :: 0 <= i < |keys| ==> !HasText(row, keys[i])) ==>
      FirstTruthy(row, keys) == None
    ensures FirstTruthy(row, keys).Some? ==> FirstTruthy(row, keys).value != ""
    decreases |keys|
  {
    if |keys| > 0 {
      FirstTruthySpec(row, keys[1..]);
      forall i | 0 < i < |keys| && HasText(row, keys[i]) &&
        (forall j :: 0 <= j < i ==> !HasText(row, keys[j]))
        ensures FirstTruthy(row, keys) == Some(row[keys[i]])
      {
        assert !HasText(row, keys[0]);
        assert keys[1..][i - 1] == keys[i];
        forall j | 0 <= j < i - 1 ensures !HasText(row, keys[1..][j]) {
          assert keys[1..][j] == keys[j + 1];
        }
      }
      if forall i :: 0 <= i < |keys| ==> !HasText(row, keys[i]) {
        forall j | 0 <= j < |keys| - 1 ensures !HasText(row, keys[1..][j]) {
          assert keys[1..][j] == keys[j + 1];
        }
      }
    }
  }

  /** Further spellings are read only when none of the first ones has text. */
  lemma {:induction false} FirstTruthyAppend(row: Row, a: seq<string>, b: seq<string>)
    ensures FirstTruthy(row, a + b) ==
      if FirstTruthy(row, a).Some? then FirstTruthy(row, a) else FirstTruthy(row, b)
    decreases |a|
  {
    if |a| == 0 {
      assert a + b == b;
    } else {
      assert (a + b)[0] == a[0] && (a + b)[1..] == a[1..] + b;
      FirstTruthyAppend(row, a[1..], b);
    }
  }

  /** `row[k1] || row[k2] || ''`. */
  function Field(row: Row, keys: seq<string>): string {
    FirstTruthy(row, keys).GetOr("")
  }

  // ---------------------------------------------------------------------
  // Safe number parsing

  /** `parseIntSafe(value)`: 0 for a missing or empty value; otherwise every
      comma is removed and `parseInt(_, 10)` applied, with 0 for `NaN`. */
  function ParseIntSafe(v: Cell): int {
    match v
    case None => 0
    case Some(s) => if s == "" then 0 else ParseInt(RemoveAll(s, {','})).GetOr(0)
  }

  /** `parseFloatSafe(value)`, given `parseFloat` with `None` for a result that
      is not finite. */
  function ParseFloatSafe(v: Cell, parseFloat: string -> Option<real>): real {
    match v
    case None => 0.0
    case Some(s) => if s == "" then 0.0 else parseFloat(RemoveAll(s, {','})).GetOr(0.0)
  }

  /** The decimal form of an integer reads back as that integer. */
  lemma ParseIntSafeOfString(n: int)
    ensures ParseIntSafe(Some(IntToString(n))) == n
  {
    var m: nat := if n < 0 then -n else n;
    DecimalValue(m);
    var s := IntToString(n);
    assert FreeOf(s, {','}) by {
      forall i | 0 <= i < |s| ensures s[i] != ',' {
        if n < 0 && i == 0 {
          assert s[0] == '-';
        } else if n < 0 {
          assert s[i] == NatToDecimal(m)[i - 1];
          assert IsDigit(s[i]);
        } else {
          assert IsDigit(s[i]);
        }
      }
    }
    RemoveAllFree(s, {','});
    ParseIntOfString(n);
  }

  /** Thousands separators are ignored: a value parses as it would without
      its commas. */
  lemma ParseIntSafeIgnoresCommas(s: string)
    ensures ParseIntSafe(Some(s)) == ParseIntSafe(Some(RemoveAll(s, {','})))
  {
    var c := RemoveAll(s, {','});
    RemoveAllFree(c, {','});
  }

  // ---------------------------------------------------------------------
  // Tags

  /** What `parseTags` may receive: text, or an array passed through. */
  datatype TagsValue = TagText(text: string) | TagArray(items: seq<string>)

  /** The characters removed before splitting: brackets and quotes. */
  const TagJunk: set<char> := {'[', ']', '"', '\''}

  /** The characters tags are separated by. */
  const TagSeparators: set<char> := {',', '|'}

  /** `parseTags(tagsString)`: empty text gives no tags and an array is
      returned as it is; otherwise brackets and quotes are removed, the text
      is split at commas and bars, and the pieces are trimmed and the empty
      ones dropped. */
  function ParseTags(v: TagsValue): seq<string> {
    match v
    case TagArray(xs) => xs
    case TagText(s) =>
      if s == "" then [] else Pieces(s, TagJunk, TagSeparators)
  }

  /** A tag as `parseTags` leaves it: not empty, no surrounding white space,
      no bracket, quote, comma or bar. */
  predicate CleanTag(x: string) {
    Clean(x, TagJunk, TagSeparators)
  }

  lemma EmptyTags(tags: seq<string>, sep: char)
    requires |tags| == 0
    ensures ParseTags(TagText(Join(tags, [sep]))) == tags
  {
  }

  /** Every tag read from text is clean. */
  lemma ParseTagsClean(s: string)
    ensures forall x :: x in ParseTags(TagText(s)) ==> CleanTag(x)
  {
    PiecesClean(s, TagJunk, TagSeparators);
  }

  /** Clean tags joined with a comma or a bar read back as the same tags. */
  lemma ParseTagsOfJoin(tags: seq<string>, sep: char)
    requires sep in TagSeparators
    requires forall j :: 0 <= j < |tags| ==> CleanTag(tags[j])
    ensures ParseTags(TagText(Join(tags, [sep]))) == tags
  {
    if |tags| == 0 {
      EmptyTags(tags, sep);
    } else {
      TagsOfJoin(tags, sep);
    }
  }

  lemma TagsOfJoin(tags: seq<string>, sep: char)
    requires sep in TagSeparators
    requires forall j :: 0 <= j < |tags| ==> CleanTag(tags[j])
    ensures |tags| > 0 ==> ParseTags(TagText(Join(tags, [sep]))) == tags
  {
    if |tags| > 0 {
      assert sep !in TagJunk;
      JoinNotEmpty(tags, [sep], TagJunk, TagSeparators);
      PiecesOfJoin(tags, sep, TagJunk, TagSeparators);
    }
  }

  // ---------------------------------------------------------------------
  // Column spellings, in the order they are tried

  const TransactionIdKeys: seq<string> := ["Transaction ID", "transaction_id"]
  const CustomerIdKeys: seq<string> := ["Customer ID", "customer_id"]
  const CustomerNameKeys: seq<string> := ["Customer Name", "customer_name"]
  const PhoneNumberKeys: seq<string> := ["Phone Number", "phone_number"]
  const GenderKeys: seq<string> := ["Gender", "gender"]
  const AgeKeys: seq<string> := ["Age", "age"]
  const CustomerRegionKeys: seq<string> := ["Customer Region", "customer_region"]
  const CustomerTypeKeys: seq<string> := ["Customer Type", "customer_type"]
  const ProductIdKeys: seq<string> := ["Product ID", "product_id"]
  const ProductNameKeys: seq<string> := ["Product Name", "product_name"]
  const BrandKeys: seq<string> := ["Brand", "brand"]
  const ProductCategoryKeys: seq<string> := ["Product Category", "product_category"]
  const TagsKeys: seq<string> := ["Tags", "tags"]
  const QuantityKeys: seq<string> := ["Quantity", "quantity"]
  const PriceKeys: seq<string> := ["Price per Unit", "price_per_unit"]
  const DiscountKeys: seq<string> := ["Discount Percentage", "discount_percentage"]
  const TotalAmountKeys: seq<string> := ["Total Amount", "total_amount"]
  const FinalAmountKeys: seq<string> := ["Final Amount", "final_amount"]
  const DateKeys: seq<string> := ["Date", "date"]
  const PaymentMethodKeys: seq<string> := ["Payment Method", "payment_method"]
  const OrderStatusKeys: seq<string> := ["Order Status", "order_status"]
  const DeliveryTypeKeys: seq<string> := ["Delivery Type", "delivery_type"]
  const StoreIdKeys: seq<string> := ["Store ID", "store_id"]
  const StoreLocationKeys: seq<string> := ["Store Location", "store_location"]
  const SalespersonIdKeys: seq<string> := ["Salesperson ID", "salesperson_id"]
  const EmployeeNameKeys: seq<string> := ["Employee Name", "employee_name"]

  /** The further spellings this loader also accepts, tried after the first two. */
  const PriceExtraKeys: seq<string> := ["Price", "price"]
  const DiscountExtraKeys: seq<string> := ["Discount", "discount"]
  const FinalAmountExtraKeys: seq<string> := ["Net Amount", "net_amount"]
  const SalespersonIdExtraKeys: seq<string> := ["Sales Person ID", "sales_person_id"]
  const EmployeeNameExtraKeys: seq<string> := ["Sales Person Name", "sales_person_name"]

  // ---------------------------------------------------------------------
  // normalizeRecord

  /** The id given to the row at 0-based `index` when it has none: `TXN`
      and `index + 1` left-padded with zeros to six digits. */
  function FallbackId(index: nat): string {
    "TXN" + PadStart(NatToDecimal(index + 1), 6, '0')
  }

  /** `normalizeRecord(record, index)` with the widest set of spellings. */
  function NormalizeRecord(row: Row, index: nat, parseFloat: string -> Option<real>): Transaction {
    Transaction(
      transactionId := FirstTruthy(row, TransactionIdKeys).GetOr(FallbackId(index)),
      customerId := Field(row, CustomerIdKeys),
      customerName := Field(row, CustomerNameKeys),
      phoneNumber := Field(row, PhoneNumberKeys),
      gender := Field(row, GenderKeys),
      age := ParseIntSafe(FirstTruthy(row, AgeKeys)),
      customerRegion := Field(row, CustomerRegionKeys),
      customerType := Field(row, CustomerTypeKeys),
      productId := Field(row, ProductIdKeys),
      productName := Field(row, ProductNameKeys),
      brand := Field(row, BrandKeys),
      productCategory := Field(row, ProductCategoryKeys),
      tags := ParseTags(TagText(Field(row, TagsKeys))),
      quantity := ParseIntSafe(FirstTruthy(row, QuantityKeys)),
      pricePerUnit := ParseFloatSafe(FirstTruthy(row, PriceKeys + PriceExtraKeys), parseFloat),
      discountPercentage := ParseFloatSafe(FirstTruthy(row, DiscountKeys + DiscountExtraKeys), parseFloat),
      totalAmount := ParseFloatSafe(FirstTruthy(row, TotalAmountKeys), parseFloat),
      finalAmount := ParseFloatSafe(FirstTruthy(row, FinalAmountKeys + FinalAmountExtraKeys), parseFloat),
      date := Field(row, DateKeys),
      paymentMethod := Field(row, PaymentMethodKeys),
      orderStatus := Field(row, OrderStatusKeys),
      deliveryType := Field(row, DeliveryTypeKeys),
      storeId := Field(row, StoreIdKeys),
      storeLocation := Field(row, StoreLocationKeys),
      salespersonId := Field(row, SalespersonIdKeys + SalespersonIdExtraKeys),
      employeeName := Field(row, EmployeeNameKeys + EmployeeNameExtraKeys))
  }

  /** The fallback id is `TXN` then at least six digits that read back as
      `index + 1`; exactly six while `index + 1` has at most six digits. */
  lemma FallbackIdSpec(index: nat)
    ensures |FallbackId(index)| >= 9 && FallbackId(index)[..3] == "TXN"
    ensures AllDigits(FallbackId(index)[3..])
    ensures ParseInt(FallbackId(index)[3..]) == Some(index + 1)
    ensures |NatToDecimal(index + 1)| <= 6 ==> |FallbackId(index)| == 9
  {
    var d := NatToDecimal(index + 1);
    var p := PadStart(d, 6, '0');
    assert FallbackId(index)[3..] == p;
    DecimalValue(index + 1);
    if |d| < 6 {
      LeadingZeros(6 - |d|, d);
    }
    ParseIntOfPadded(index + 1, 6);
  }

  /** Rows at different positions never get the same fallback id. */
  lemma FallbackIdsDistinct(i: nat, j: nat)
    requires i != j
    ensures FallbackId(i) != FallbackId(j)
  {
    FallbackIdSpec(i);
    FallbackIdSpec(j);
  }

  /** The id is the row's own when one of its id columns has text, and the
      fallback otherwise; either way it is not empty. */
  lemma NormalizeTransactionId(row: Row, index: nat, parseFloat: string -> Option<real>)
    ensures HasText(row, "Transaction ID") ==>
      NormalizeRecord(row, index, parseFloat).transactionId == row["Transaction ID"]
    ensures !HasText(row, "Transaction ID") && HasText(row, "transaction_id") ==>
      NormalizeRecord(row, index, parseFloat).transactionId == row["transaction_id"]
    ensures !HasText(row, "Transaction ID") && !HasText(row, "transaction_id") ==>
      NormalizeRecord(row, index, parseFloat).transactionId == FallbackId(index)
    ensures NormalizeRecord(row, index, parseFloat).transactionId != ""
  {
    FirstTruthySpec(row, TransactionIdKeys);
    FallbackIdSpec(index);
  }

  /** Every tag of a normalised record is clean. */
  lemma NormalizeTagsClean(row: Row, index: nat, parseFloat: string -> Option<real>)
    ensures forall x :: x in NormalizeRecord(row, index, parseFloat).tags ==> CleanTag(x)
  {
    ParseTagsClean(Field(row, TagsKeys));
  }

  /** The further price spellings are read only when neither `Price per Unit`
      nor `price_per_unit` has text. */
  lemma NormalizePriceAliases(row: Row, index: nat, parseFloat: string -> Option<real>)
    ensures NormalizeRecord(row, index, parseFloat).pricePerUnit ==
      if FirstTruthy(row, PriceKeys).Some? then ParseFloatSafe(FirstTruthy(row, PriceKeys), parseFloat)
      else ParseFloatSafe(FirstTruthy(row, PriceExtraKeys), parseFloat)
  {
    FirstTruthyAppend(row, PriceKeys, PriceExtraKeys);
  }

  /** A missing or empty value, or one without a leading integer once its
      commas are gone, reads as 0. */
  lemma ParseIntSafeDefaults(s: string)
    ensures ParseIntSafe(None) == 0 && ParseIntSafe(Some("")) == 0
    ensures ParseInt(RemoveAll(s, {','})).None? ==> ParseIntSafe(Some(s)) == 0
    ensures s != "" && ParseInt(RemoveAll(s, {','})).Some? ==>
      ParseIntSafe(Some(s)) == ParseInt(RemoveAll(s, {','})).value
  {
  }

  /** Empty text gives no tags, and an array is returned as it is. */
  lemma ParseTagsPassThrough(xs: seq<string>)
    ensures ParseTags(TagText("")) == [] && ParseTags(TagArray(xs)) == xs
  {
  }
}
