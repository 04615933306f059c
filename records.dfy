/** The normalised sales record, shared by the in-memory path and the store,
    and the calendar dates its `date` field holds. */
module Records {
  import opened Wrappers
  import opened Text
  import opened Numbers

  /** One sales transaction with the 26 fields every normalised row carries. */
  datatype Transaction = Transaction(
    transactionId: string,
    customerId: string,
    customerName: string,
    phoneNumber: string,
    gender: string,
    age: int,
    customerRegion: string,
    customerType: string,
    productId: string,
    productName: string,
    brand: string,
    productCategory: string,
    tags: seq<string>,
    quantity: int,
    pricePerUnit: real,
    discountPercentage: real,
    totalAmount: real,
    finalAmount: real,
    date: string,
    paymentMethod: string,
    orderStatus: string,
    deliveryType: string,
    storeId: string,
    storeLocation: string,
    salespersonId: string,
    employeeName: string)

  /** The six fields both search paths look in, in the order they are listed. */
  function SearchFields(t: Transaction): (r: seq<string>)
    ensures |r| == 6
  {
    [t.customerName, t.phoneNumber, t.transactionId, t.customerId, t.employeeName, t.productId]
  }

  // ---------------------------------------------------------------------
  // Calendar dates

  /** Milliseconds in a day. */
  const DayMs: int := 86_400_000

  predicate IsLeap(y: int) {
    y % 4 == 0 && (y % 100 != 0 || y % 400 == 0)
  }

  function DaysIn(y: int, m: int): int {
    if m == 2 then (if IsLeap(y) then 29 else 28)
    else if m == 4 || m == 6 || m == 9 || m == 11 then 30
    else 31
  }

  /** Days in the months of year `y` before month `m`. */
  function DaysBeforeMonth(y: int, m: int): int
    decreases m
  {
    if m <= 1 then 0 else DaysBeforeMonth(y, m - 1) + DaysIn(y, m - 1)
  }

  /** Days in the years `0 .. y - 1` of the proleptic Gregorian calendar. */
  function DaysBeforeYear(y: nat): int {
    365 * y + (y + 3) / 4 - (y + 99) / 100 + (y + 399) / 400
  }

  /** Days since 0000-01-01. A day past the month's end lands in the next
      month, as the runtime's date arithmetic rolls it over. */
  function DayNumber(y: nat, m: int, d: int): int {
    DaysBeforeYear(y) + DaysBeforeMonth(y, m) + (d - 1)
  }

  /** Days from 0000-01-01 to the Unix epoch, 1970-01-01. */
  function EpochDay(): int {
    DayNumber(1970, 1, 1)
  }

  predicate IsDateText(s: string) {
    |s| == 10 && s[4] == '-' && s[7] == '-' &&
    AllDigits(s[..4]) && AllDigits(s[5..7]) && AllDigits(s[8..])
  }

  /** `new Date(s).getTime()` for the date-only form `YYYY-MM-DD`, read as UTC
      midnight: `None` stands for an invalid date (`NaN`). The month must be
      1-12 and the day 1-31; a day past the month's end rolls over into the
      next month. */
  function ParseDate(s: string): Option<int> {
    if IsDateText(s) then
      var y := DigitsValue(s[..4]);
      var m := DigitsValue(s[5..7]);
      var d := DigitsValue(s[8..]);
      if 1 <= m <= 12 && 1 <= d <= 31 then Some((DayNumber(y, m, d) - EpochDay()) * DayMs) else None
    else None
  }

  /** A day past the month's end is the same instant as the matching day of
      the next month. */
  lemma RollOver(y: nat, m: int, d: int)
    requires 1 <= m < 12 && DaysIn(y, m) < d
    ensures DayNumber(y, m, d) == DayNumber(y, m + 1, d - DaysIn(y, m))
  {
  }

  /** The runtime reads 30 February 2023 as 2 March 2023. */
  lemma FebruaryThirtieth()
    ensures ParseDate("2023-02-30") == ParseDate("2023-03-02") != None
  {
    var a, b := "2023-02-30", "2023-03-02";
    assert a[..4] == b[..4] == "2023" && a[5..7] == "02" && b[5..7] == "03";
    assert a[8..] == "30" && b[8..] == "02";
    DateDigits();
    assert IsDateText(a) && IsDateText(b);
    assert ParseDate(a) == Some((DayNumber(2023, 2, 30) - EpochDay()) * DayMs);
    assert ParseDate(b) == Some((DayNumber(2023, 3, 2) - EpochDay()) * DayMs);
    RollOver(2023, 2, 30);
  }

  lemma DateDigits()
    ensures DigitsValue("2023") == 2023
    ensures DigitsValue("02") == 2 && DigitsValue("03") == 3 && DigitsValue("30") == 30
  {
    assert "2023"[..3] == "202" && "202"[..2] == "20" && "20"[..1] == "2" && "2"[..0] == "";
    assert "02"[..1] == "0" && "03"[..1] == "0" && "30"[..1] == "3" && "0"[..0] == "" && "3"[..0] == "";
  }

  /** Every valid date is read at midnight. */
  lemma ParseDateMidnight(s: string)
    ensures ParseDate(s).Some? ==> ParseDate(s).value % DayMs == 0
  {
    if ParseDate(s).Some? {
      var y, m, d := DigitsValue(s[..4]), DigitsValue(s[5..7]), DigitsValue(s[8..]);
      assert ParseDate(s).value == (DayNumber(y, m, d) - EpochDay()) * DayMs;
      MultipleOfDay(DayNumber(y, m, d) - EpochDay());
    }
  }

  lemma MultipleOfDay(k: int)
    ensures (k * DayMs) % DayMs == 0
  {
  }

  /** `setHours(23, 59, 59, 999)` applied to the midnight `t`. */
  function EndOfDay(t: int): int {
    t + DayMs - 1
  }

  /** A midnight stamp lies within a day's end exactly when it is that day or earlier. */
  lemma WithinEndOfDay(a: int, b: int)
    requires a % DayMs == 0 && b % DayMs == 0
    ensures a <= EndOfDay(b) <==> a <= b
  {
    var qa := a / DayMs;
    var qb := b / DayMs;
    assert a == qa * DayMs && b == qb * DayMs;
  }
}
