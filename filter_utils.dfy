/** The in-memory query path over an array of normalised records: word-prefix
    search, multi-select and range filters, sorting, pagination and the
    filter-option domains. */
module FilterUtils {
  import opened Wrappers
  import opened Text
  import opened Numbers
  import opened Seqs
  import opened Records

  // =====================================================================
  // applySearch

  /** The query the term is reduced to: lower-cased, then trimmed. */
  function SearchQuery(term: string): string {
    Trim(Lower(term))
  }

  /** The callback tried on each searchable field. A query of several words
      needs every word to begin some word of this one field; a single word
      needs to begin one word of the field. */
  predicate FieldMatches(field: string, query: string) {
    if field == "" then false
    else
      var fieldValue := Lower(field);
      var queryWords := SplitWs(query);
      if |queryWords| > 1 then
        var fieldWords := SplitWs(fieldValue);
        forall qw :: qw in queryWords ==> SomeWordBegins(fieldWords, qw)
      else
        var fieldWords := SplitWs(fieldValue);
        SomeWordBegins(fieldWords, query)
  }

  /** `fieldWords.some(word => word === w || word.startsWith(w))`. */
  predicate SomeWordBegins(fieldWords: seq<string>, w: string) {
    exists word :: word in fieldWords && (word == w || StartsWith(word, w))
  }

  predicate RecordMatches(t: Transaction, query: string) {
    exists field :: field in SearchFields(t) && FieldMatches(field, query)
  }

  function Matcher(query: string): Transaction -> bool {
    t => RecordMatches(t, query)
  }

  /** `applySearch(data, searchTerm)`; an absent term is the empty string. */
  function ApplySearch(data: seq<Transaction>, term: string): seq<Transaction> {
    if Trim(term) == "" then data else Where(data, Matcher(SearchQuery(term)))
  }

  /** A blank or absent term returns the data untouched. */
  lemma ApplySearchBlank(data: seq<Transaction>, term: string)
    requires forall i :: 0 <= i < |term| ==> IsWs(term[i])
    ensures ApplySearch(data, term) == data
  {
    TrimSpec(term);
  }

  /** The words of a non-blank query are non-empty and free of white space. */
  lemma QueryWords(term: string)
    requires Trim(term) != ""
    ensures SearchQuery(term) != ""
    ensures forall w :: w in SplitWs(SearchQuery(term)) ==> w != "" && NoWs(w)
  {
    var q := SearchQuery(term);
    QueryTrimmed(term);
    SplitWsOfTrimmed(q);
    SplitWsNoWs(q);
  }

  lemma QueryTrimmed(term: string)
    requires Trim(term) != ""
    ensures var q := SearchQuery(term); q != "" && !IsWs(q[0]) && !IsWs(q[|q| - 1])
  {
    var l := Lower(term);
    TrimLowerBlank(term);
    assert Trim(l) != [];
    TrimSpec(l);
    assert SearchQuery(term) == Trim(l);
  }

  /** One field, checked against a query word by word: every word of the query
      begins a white-space separated word of the lower-cased field. */
  lemma FieldMatchesWords(field: string, query: string)
    requires query != ""
    requires forall w :: w in SplitWs(query) ==> w != "" && NoWs(w)
    ensures FieldMatches(field, query) <==>
      field != "" && forall w :: w in SplitWs(query) ==> PrefixAtWordStart(Lower(field), w)
  {
    var words := SplitWs(query);
    if field != "" {
      var fv := Lower(field);
      if |words| > 1 {
        forall w | w in words ensures SomeWordBegins(SplitWs(fv), w) <==> PrefixAtWordStart(fv, w) {
          WordBeginsPiece(fv, w);
        }
      } else {
        SplitWsSingle(query);
        assert words == [query] by {
          assert words[0] in words;
        }
        WordBeginsPiece(fv, query);
      }
    }
  }

  /** The callback holds exactly when `w` begins a white-space separated word. */
  lemma WordBeginsPiece(fv: string, w: string)
    requires w != "" && NoWs(w)
    ensures SomeWordBegins(SplitWs(fv), w) <==> PrefixAtWordStart(fv, w)
  {
    SplitWsPrefix(fv, w);
    if SomeWordBegins(SplitWs(fv), w) {
      var fw :| fw in SplitWs(fv) && (fw == w || StartsWith(fw, w));
      if fw == w {
        assert StartsWith(fw, w) by {
          assert fw[..|w|] == fw;
        }
      }
    }
  }

  /** Single-word search: a record is kept exactly when one of its six searchable
      fields is non-empty and has a white-space separated word that begins with
      the lower-cased, trimmed term. */
  lemma SearchSingleWord(data: seq<Transaction>, term: string, t: Transaction)
    requires Trim(term) != "" && NoWs(SearchQuery(term))
    ensures t in ApplySearch(data, term) <==>
      t in data && exists f :: f in SearchFields(t) && f != "" && PrefixAtWordStart(Lower(f), SearchQuery(term))
  {
    var q := SearchQuery(term);
    QueryWords(term);
    assert ApplySearch(data, term) == Where(data, Matcher(q));
    WhereMembers(data, Matcher(q), t);
    SingleWordRecord(t, q);
  }

  /** A record matches a one-word query exactly when one of its non-empty
      searchable fields has a word beginning with it. */
  lemma SingleWordRecord(t: Transaction, q: string)
    requires q != "" && NoWs(q)
    ensures RecordMatches(t, q) <==> exists f :: f in SearchFields(t) && f != "" && PrefixAtWordStart(Lower(f), q)
  {
    SplitWsSingle(q);
    forall f | f in SearchFields(t)
      ensures FieldMatches(f, q) <==> f != "" && PrefixAtWordStart(Lower(f), q)
    {
      FieldMatchesWords(f, q);
    }
  }

  /** Multi-word search: a record is kept exactly when one single non-empty
      searchable field holds, for every query word, a word beginning with it. */
  lemma SearchMultiWord(data: seq<Transaction>, term: string, t: Transaction)
    requires Trim(term) != "" && !NoWs(SearchQuery(term))
    ensures t in ApplySearch(data, term) <==>
      t in data &&
      exists f :: f in SearchFields(t) && f != "" &&
                  forall w :: w in SplitWs(SearchQuery(term)) ==> PrefixAtWordStart(Lower(f), w)
  {
    var q := SearchQuery(term);
    QueryWords(term);
    WhereMembers(data, Matcher(q), t);
    forall f | f in SearchFields(t)
      ensures FieldMatches(f, q) <==>
        f != "" && forall w :: w in SplitWs(q) ==> PrefixAtWordStart(Lower(f), w)
    {
      FieldMatchesWords(f, q);
    }
  }

  // =====================================================================
  // applyFilters

  /** The filter object; an absent list is the empty list, and `None` stands
      for an `undefined` or `null` bound. */
  datatype Filters = Filters(
    customerRegion: seq<string>,
    gender: seq<string>,
    ageMin: Option<string>,
    ageMax: Option<string>,
    productCategory: seq<string>,
    tags: seq<string>,
    paymentMethod: seq<string>,
    dateFrom: Option<string>,
    dateTo: Option<string>)

  /** An age bound takes effect when it is given, not `''`, and `parseInt` reads it. */
  function AgeBound(s: Option<string>): Option<int> {
    if s.Some? && s.value != "" then ParseIntAuto(s.value) else None
  }

  /** A date bound takes effect when it is a non-empty string naming a valid date. */
  function DateBound(s: Option<string>): Option<int> {
    if s.Some? && s.value != "" then ParseDate(s.value) else None
  }

  /** What the filters keep, condition by condition. */
  predicate Keeps(f: Filters, t: Transaction) {
    && (|f.customerRegion| > 0 ==> t.customerRegion in f.customerRegion)
    && (|f.gender| > 0 ==> t.gender in f.gender)
    && (AgeBound(f.ageMin).Some? ==> t.age >= AgeBound(f.ageMin).value)
    && (AgeBound(f.ageMax).Some? ==> t.age <= AgeBound(f.ageMax).value)
    && (|f.productCategory| > 0 ==> t.productCategory in f.productCategory)
    && (|f.tags| > 0 ==> |t.tags| > 0 && exists tag :: tag in f.tags && tag in t.tags)
    && (|f.paymentMethod| > 0 ==> t.paymentMethod in f.paymentMethod)
    && (DateBound(f.dateFrom).Some? ==>
          ParseDate(t.date).Some? && ParseDate(t.date).value >= DateBound(f.dateFrom).value)
    && (DateBound(f.dateTo).Some? ==>
          ParseDate(t.date).Some? && ParseDate(t.date).value <= EndOfDay(DateBound(f.dateTo).value))
  }

  function KeepsFn(f: Filters): Transaction -> bool {
    t => Keeps(f, t)
  }

  /** Whether step `k` of the chain of `if` blocks runs. */
  predicate Active(f: Filters, k: nat) {
    match k
    case 0 => |f.customerRegion| > 0
    case 1 => |f.gender| > 0
    case 2 => AgeBound(f.ageMin).Some?
    case 3 => AgeBound(f.ageMax).Some?
    case 4 => |f.productCategory| > 0
    case 5 => |f.tags| > 0
    case 6 => |f.paymentMethod| > 0
    case 7 => DateBound(f.dateFrom).Some?
    case 8 => DateBound(f.dateTo).Some?
    case _ => false
  }

  /** The callback step `k` filters with; every record passes a step that does not run. */
  predicate Check(f: Filters, k: nat, t: Transaction) {
    !Active(f, k) ||
    match k
    case 0 => t.customerRegion in f.customerRegion
    case 1 => t.gender in f.gender
    case 2 => t.age >= AgeBound(f.ageMin).value
    case 3 => t.age <= AgeBound(f.ageMax).value
    case 4 => t.productCategory in f.productCategory
    case 5 => |t.tags| > 0 && exists tag :: tag in f.tags && tag in t.tags
    case 6 => t.paymentMethod in f.paymentMethod
    case 7 => ParseDate(t.date).Some? && ParseDate(t.date).value >= DateBound(f.dateFrom).value
    case _ => ParseDate(t.date).Some? && ParseDate(t.date).value <= EndOfDay(DateBound(f.dateTo).value)
  }

  function CheckFn(f: Filters, k: nat): Transaction -> bool {
    t => Check(f, k, t)
  }

  /** Passing the first `n` steps. */
  predicate PassesFirst(f: Filters, n: nat, t: Transaction) {
    forall k :: 0 <= k < n ==> Check(f, k, t)
  }

  function UpTo(f: Filters, n: nat): Transaction -> bool {
    t => PassesFirst(f, n, t)
  }

  /** The working copy after the first `n` steps of the chain. */
  function FilterSteps(data: seq<Transaction>, f: Filters, n: nat): seq<Transaction> {
    if n == 0 then data
    else
      var before := FilterSteps(data, f, n - 1);
      if Active(f, n - 1) then Where(before, CheckFn(f, n - 1)) else before
  }

  lemma {:induction false} FilterStepsFilter(data: seq<Transaction>, f: Filters, n: nat)
    ensures FilterSteps(data, f, n) == Where(data, UpTo(f, n))
    decreases n
  {
    if n == 0 {
      WhereAll(data, UpTo(f, 0));
    } else {
      var k := n - 1;
      FilterStepsFilter(data, f, k);
      if Active(f, k) {
        WhereWhere(data, UpTo(f, k), CheckFn(f, k), UpTo(f, n));
      } else {
        WhereSame(data, UpTo(f, k), UpTo(f, n));
      }
    }
  }

  /** One more active or inactive step of the chain. */
  lemma FilterNext(data: seq<Transaction>, f: Filters, n: nat, before: seq<Transaction>, after: seq<Transaction>)
    requires before == FilterSteps(data, f, n)
    requires after == if Active(f, n) then Where(before, CheckFn(f, n)) else before
    ensures after == FilterSteps(data, f, n + 1)
  {
  }

  lemma AllStepsAreKeeps(data: seq<Transaction>, f: Filters)
    ensures FilterSteps(data, f, 9) == Where(data, KeepsFn(f))
  {
    FilterStepsFilter(data, f, 9);
    forall t | t in data ensures UpTo(f, 9)(t) == KeepsFn(f)(t) {
      var each := Check(f, 0, t) && Check(f, 1, t) && Check(f, 2, t) && Check(f, 3, t) &&
        Check(f, 4, t) && Check(f, 5, t) && Check(f, 6, t) && Check(f, 7, t) && Check(f, 8, t);
      assert each == Keeps(f, t);
      if each {
        forall k | 0 <= k < 9 ensures Check(f, k, t) {
          assert k == 0 || k == 1 || k == 2 || k == 3 || k == 4 || k == 5 || k == 6 || k == 7 || k == 8;
        }
      }
    }
    WhereSame(data, UpTo(f, 9), KeepsFn(f));
  }

  /** `applyFilters`: each active condition narrows the working copy in turn.
      The result is the input with exactly the records `Keeps` accepts, in
      their original order. */
  method ApplyFilters(data: seq<Transaction>, f: Filters) returns (filtered: seq<Transaction>)
    ensures filtered == Where(data, KeepsFn(f))
  {
    filtered := data;
    ghost var before, step := data, 0;
    if |f.customerRegion| > 0 {
      filtered := Where(filtered, CheckFn(f, 0));
    }
    FilterNext(data, f, step, before, filtered);
    before, step := filtered, step + 1;
    if |f.gender| > 0 {
      filtered := Where(filtered, CheckFn(f, 1));
    }
    FilterNext(data, f, step, before, filtered);
    before, step := filtered, step + 1;
    var minAge := AgeBound(f.ageMin);
    if minAge.Some? {
      filtered := Where(filtered, CheckFn(f, 2));
    }
    FilterNext(data, f, step, before, filtered);
    before, step := filtered, step + 1;
    var maxAge := AgeBound(f.ageMax);
    if maxAge.Some? {
      filtered := Where(filtered, CheckFn(f, 3));
    }
    FilterNext(data, f, step, before, filtered);
    before, step := filtered, step + 1;
    if |f.productCategory| > 0 {
      filtered := Where(filtered, CheckFn(f, 4));
    }
    FilterNext(data, f, step, before, filtered);
    before, step := filtered, step + 1;
    if |f.tags| > 0 {
      filtered := Where(filtered, CheckFn(f, 5));
    }
    FilterNext(data, f, step, before, filtered);
    before, step := filtered, step + 1;
    if |f.paymentMethod| > 0 {
      filtered := Where(filtered, CheckFn(f, 6));
    }
    FilterNext(data, f, step, before, filtered);
    before, step := filtered, step + 1;
    var fromDate := DateBound(f.dateFrom);
    if fromDate.Some? {
      filtered := Where(filtered, CheckFn(f, 7));
    }
    FilterNext(data, f, step, before, filtered);
    before, step := filtered, step + 1;
    var toDate := DateBound(f.dateTo);
    if toDate.Some? {
      filtered := Where(filtered, CheckFn(f, 8));
    }
    FilterNext(data, f, step, before, filtered);
    AllStepsAreKeeps(data, f);
  }

  lemma FilteredSpec(data: seq<Transaction>, f: Filters)
    ensures forall t :: t in Where(data, KeepsFn(f)) <==> t in data && Keeps(f, t)
    ensures IsSubsequence(Where(data, KeepsFn(f)), data)
  {
    forall t ensures t in Where(data, KeepsFn(f)) <==> t in data && Keeps(f, t) {
      WhereMembers(data, KeepsFn(f), t);
    }
    WhereIsSubsequence(data, KeepsFn(f));
  }

  /** The end-of-day extension makes `dateTo` inclusive of its whole day: a
      record dated on or before that day is kept by that bound. */
  lemma DateToInclusive(f: Filters, t: Transaction)
    requires DateBound(f.dateTo).Some? && ParseDate(t.date).Some?
    ensures ParseDate(t.date).value <= EndOfDay(DateBound(f.dateTo).value) <==>
      ParseDate(t.date).value <= DateBound(f.dateTo).value
  {
    ParseDateMidnight(t.date);
    ParseDateMidnight(f.dateTo.value);
    WithinEndOfDay(ParseDate(t.date).value, DateBound(f.dateTo).value);
  }

  // =====================================================================
  // applySorting

  /** `sortOrder.toLowerCase() === 'desc' ? -1 : 1`. */
  function Direction(sortOrder: string): (d: int)
    ensures d == 1 || d == -1
  {
    if Lower(sortOrder) == "desc" then -1 else 1
  }

  function Sign(x: real): (s: int)
    ensures s == -1 || s == 0 || s == 1
    ensures (s < 0 <==> x < 0.0) && (s > 0 <==> x > 0.0)
  {
    if x < 0.0 then -1 else if x > 0.0 then 1 else 0
  }

  /** The comparator: only its sign matters to the sort, so the difference of
      two amounts is reduced to its sign. An invalid date makes the difference
      `NaN`, which the sort reads as a tie. */
  function Compare(sortBy: string, order: int, a: Transaction, b: Transaction): int {
    if sortBy == "date" then
      var dateA := ParseDate(a.date);
      var dateB := ParseDate(b.date);
      if dateA.Some? && dateB.Some? then (dateB.value - dateA.value) * order else 0
    else if sortBy == "quantity" then (a.quantity - b.quantity) * order
    else if sortBy == "customerName" then LexCmp(Lower(a.customerName), Lower(b.customerName)) * order
    else if sortBy == "finalAmount" then Sign(a.finalAmount - b.finalAmount) * order
    else 0
  }

  function Comparator(sortBy: string, order: int): (Transaction, Transaction) -> int {
    (a, b) => Compare(sortBy, order, a, b)
  }

  /** `applySorting(data, sortBy, sortOrder)`; a missing `sortOrder` is `'asc'`. */
  function ApplySorting(data: seq<Transaction>, sortBy: string, sortOrder: string): seq<Transaction> {
    if sortBy == "" then data else SortBy(data, Comparator(sortBy, Direction(sortOrder)))
  }

  /** The result is a reordering of the input, and no sort key returns it unchanged. */
  lemma ApplySortingPermutes(data: seq<Transaction>, sortBy: string, sortOrder: string)
    ensures multiset(ApplySorting(data, sortBy, sortOrder)) == multiset(data)
    ensures sortBy == "" ==> ApplySorting(data, sortBy, sortOrder) == data
  {
    if sortBy != "" {
      SortByPermutes(data, Comparator(sortBy, Direction(sortOrder)));
    }
  }

  /** A key the comparator does not know makes every pair tie, and the stable
      sort keeps the original order. */
  lemma ApplySortingUnknownKey(data: seq<Transaction>, sortBy: string, sortOrder: string)
    requires sortBy !in {"date", "quantity", "customerName", "finalAmount"}
    ensures ApplySorting(data, sortBy, sortOrder) == data
  {
    if sortBy != "" {
      SortByAllTies(data, Comparator(sortBy, Direction(sortOrder)));
    }
  }

  lemma QuantityConsistent(data: seq<Transaction>, order: int)
    requires order == 1 || order == -1
    ensures ConsistentOn(Comparator("quantity", order), data)
  {
  }

  /** `quantity` sorts ascending for `'asc'` and descending for `'desc'`. */
  lemma ApplySortingQuantity(data: seq<Transaction>, sortOrder: string)
    ensures var r := ApplySorting(data, "quantity", sortOrder);
      forall i, j :: 0 <= i < j < |r| ==>
        if Lower(sortOrder) == "desc" then r[i].quantity >= r[j].quantity else r[i].quantity <= r[j].quantity
  {
    var cmp := Comparator("quantity", Direction(sortOrder));
    QuantityConsistent(data, Direction(sortOrder));
    SortBySorted(data, cmp);
  }

  lemma FinalAmountConsistent(data: seq<Transaction>, order: int)
    requires order == 1 || order == -1
    ensures ConsistentOn(Comparator("finalAmount", order), data)
  {
  }

  /** `finalAmount` sorts ascending for `'asc'` and descending for `'desc'`. */
  lemma ApplySortingFinalAmount(data: seq<Transaction>, sortOrder: string)
    ensures var r := ApplySorting(data, "finalAmount", sortOrder);
      forall i, j :: 0 <= i < j < |r| ==>
        if Lower(sortOrder) == "desc" then r[i].finalAmount >= r[j].finalAmount else r[i].finalAmount <= r[j].finalAmount
  {
    var cmp := Comparator("finalAmount", Direction(sortOrder));
    FinalAmountConsistent(data, Direction(sortOrder));
    SortBySorted(data, cmp);
  }

  lemma NameConsistent(data: seq<Transaction>, order: int)
    requires order == 1 || order == -1
    ensures ConsistentOn(Comparator("customerName", order), data)
  {
    var cmp := Comparator("customerName", order);
    forall a, b | a in data && b in data ensures cmp(a, b) < 0 <==> cmp(b, a) > 0 {
      LexCmpAntisymmetric(Lower(a.customerName), Lower(b.customerName));
    }
    forall a, b, c | a in data && b in data && c in data && cmp(a, b) <= 0 && cmp(b, c) <= 0
      ensures cmp(a, c) <= 0
    {
      var x, y, z := Lower(a.customerName), Lower(b.customerName), Lower(c.customerName);
      if order == 1 {
        LexCmpTransitive(x, y, z);
      } else {
        LexCmpAntisymmetric(x, y);
        LexCmpAntisymmetric(y, z);
        LexCmpAntisymmetric(x, z);
        LexCmpTransitive(z, y, x);
      }
    }
  }

  /** `customerName` sorts by the lower-cased name, ascending for `'asc'`. */
  lemma ApplySortingCustomerName(data: seq<Transaction>, sortOrder: string)
    ensures var r := ApplySorting(data, "customerName", sortOrder);
      forall i, j :: 0 <= i < j < |r| ==>
        if Lower(sortOrder) == "desc" then LexCmp(Lower(r[i].customerName), Lower(r[j].customerName)) >= 0
        else LexCmp(Lower(r[i].customerName), Lower(r[j].customerName)) <= 0
  {
    var cmp := Comparator("customerName", Direction(sortOrder));
    NameConsistent(data, Direction(sortOrder));
    SortBySorted(data, cmp);
  }

  lemma DateConsistent(data: seq<Transaction>, order: int)
    requires order == 1 || order == -1
    requires forall t :: t in data ==> ParseDate(t.date).Some?
    ensures ConsistentOn(Comparator("date", order), data)
  {
  }

  /** `date` with `'asc'` puts the newest record first, and `'desc'` the oldest:
      the comparator subtracts in the opposite order to the other keys. This
      holds when every date is valid; an invalid one ties with everything. */
  lemma ApplySortingDate(data: seq<Transaction>, sortOrder: string)
    requires forall t :: t in data ==> ParseDate(t.date).Some?
    ensures var r := ApplySorting(data, "date", sortOrder);
      forall i, j :: 0 <= i < j < |r| ==>
        ParseDate(r[i].date).Some? && ParseDate(r[j].date).Some? &&
        if Lower(sortOrder) == "desc" then ParseDate(r[i].date).value <= ParseDate(r[j].date).value
        else ParseDate(r[i].date).value >= ParseDate(r[j].date).value
  {
    var cmp := Comparator("date", Direction(sortOrder));
    DateConsistent(data, Direction(sortOrder));
    SortBySorted(data, cmp);
    var r := SortBy(data, cmp);
    SortByPermutes(data, cmp);
    PermutationMembers(data, r);
    assert forall i :: 0 <= i < |r| ==> r[i] in data;
  }

  // =====================================================================
  // applyPagination

  datatype PageInfo = PageInfo(
    currentPage: int,
    pageSize: int,
    totalItems: int,
    totalPages: int,
    hasNextPage: bool,
    hasPrevPage: bool)

  datatype Paged<T> = Paged(data: seq<T>, pagination: PageInfo)

  /** `Math.ceil(n / d)` for a positive divisor. */
  function CeilDiv(n: nat, d: nat): (q: nat)
    requires d > 0
    ensures q * d >= n && (q == 0 || (q - 1) * d < n)
  {
    var q := (n + d - 1) / d;
    assert (n + d - 1) == q * d + (n + d - 1) % d;
    q
  }

  function Max(a: int, b: int): int {
    if a >= b then a else b
  }

  /** A product of an ordered pair with a non-negative factor keeps the order. */
  lemma MulMono(a: int, b: int, c: nat)
    requires a <= b
    ensures a * c <= b * c
  {
  }

  /** The page `applyPagination` settles on: `page` clamped into `[1, max(totalPages, 1)]`. */
  function ClampPage(page: int, totalPages: nat): (c: int)
    ensures 1 <= c <= Max(totalPages, 1)
    ensures 1 <= page <= totalPages ==> c == page
    ensures page > totalPages >= 1 ==> c == totalPages
  {
    Min(Max(1, page), if totalPages == 0 then 1 else totalPages)
  }

  /** Index of the first row of page `page` (1-based) in pages of `size` rows. */
  function PageStart(page: int, size: int): (start: nat)
    requires page >= 1 && size >= 1
    ensures start == (page - 1) * size
  {
    MulMono(0, page - 1, size);
    (page - 1) * size
  }

  /** `applyPagination(data, page, pageSize)`: the page is clamped into
      `[1, max(totalPages, 1)]` before slicing. */
  function ApplyPagination<T>(data: seq<T>, page: int, pageSize: int): (r: Paged<T>)
    requires pageSize > 0
    ensures r.pagination.currentPage >= 1 && r.pagination.pageSize == pageSize
  {
    var totalPages := CeilDiv(|data|, pageSize);
    var currentPage := ClampPage(page, totalPages);
    Paged(Window(data, PageStart(currentPage, pageSize), pageSize),
      PageInfo(currentPage, pageSize, |data|, totalPages, currentPage < totalPages, currentPage > 1))
  }

  /** The page count is `ceil(n / pageSize)`; the page is clamped (a page past
      the end becomes the last one, a page below 1 the first), its rows are the
      slice of at most `pageSize` rows at `(currentPage - 1) * pageSize`, and
      the flags compare the clamped page with the page count. */
  lemma ApplyPaginationSpec<T>(data: seq<T>, page: int, pageSize: int)
    requires pageSize > 0
    ensures var r := ApplyPagination(data, page, pageSize);
      && 1 <= r.pagination.currentPage <= Max(r.pagination.totalPages, 1)
      && (1 <= page <= r.pagination.totalPages ==> r.pagination.currentPage == page)
      && (page > r.pagination.totalPages >= 1 ==> r.pagination.currentPage == r.pagination.totalPages)
      && (page < 1 ==> r.pagination.currentPage == 1)
      && r.pagination.totalItems == |data|
      && r.pagination.totalPages == CeilDiv(|data|, pageSize)
      && r.pagination.totalPages * pageSize >= |data|
      && (r.pagination.totalPages - 1) * pageSize < |data|
      && r.data == Window(data, PageStart(r.pagination.currentPage, pageSize), pageSize)
      && |r.data| <= pageSize
      && (r.pagination.hasNextPage <==> r.pagination.currentPage < r.pagination.totalPages)
      && (r.pagination.hasPrevPage <==> r.pagination.currentPage > 1)
  {
    var tp := CeilDiv(|data|, pageSize);
    var cp := ClampPage(page, tp);
    assert ApplyPagination(data, page, pageSize)
      == Paged(Window(data, PageStart(cp, pageSize), pageSize),
           PageInfo(cp, pageSize, |data|, tp, cp < tp, cp > 1));
    assert (tp - 1) * pageSize < |data| by {
      if tp == 0 { assert (tp - 1) * pageSize == -pageSize; }
    }
  }

  /** Pages `1..k` as `applyPagination` returns them, one after the other. */
  function PagesUpTo<T>(data: seq<T>, pageSize: int, k: nat): seq<T>
    requires pageSize > 0
  {
    if k == 0 then [] else PagesUpTo(data, pageSize, k - 1) + ApplyPagination(data, k, pageSize).data
  }

  lemma {:induction false} PagesUpToAreWindows<T>(data: seq<T>, pageSize: int, k: nat)
    requires pageSize > 0 && k <= CeilDiv(|data|, pageSize)
    ensures PagesUpTo(data, pageSize, k) == FirstPages(data, pageSize, k)
    decreases k
  {
    if k > 0 {
      PagesUpToAreWindows(data, pageSize, k - 1);
    }
  }

  /** Reading pages `1..totalPages` in turn yields every record exactly once, in order. */
  lemma PagesReproduceData<T>(data: seq<T>, pageSize: int)
    requires pageSize > 0
    ensures PagesUpTo(data, pageSize, ApplyPagination(data, 1, pageSize).pagination.totalPages) == data
  {
    var tp := CeilDiv(|data|, pageSize);
    PagesUpToAreWindows(data, pageSize, tp);
    PagesCover(data, pageSize, tp);
  }

  // =====================================================================
  // extractFilterOptions

  datatype FilterOptions = FilterOptions(
    customerRegions: seq<string>,
    genders: seq<string>,
    productCategories: seq<string>,
    tags: seq<string>,
    paymentMethods: seq<string>,
    ageMin: int,
    ageMax: int)

  function RegionOf(t: Transaction): string { t.customerRegion }
  function GenderOf(t: Transaction): string { t.gender }
  function CategoryOf(t: Transaction): string { t.productCategory }
  function PaymentOf(t: Transaction): string { t.paymentMethod }

  /** The non-empty values of one field, record by record. */
  function Truthy(data: seq<Transaction>, field: Transaction -> string): (r: seq<string>)
    ensures forall x :: x in r ==> x != ""
  {
    if data == [] then []
    else
      var v := field(data[|data| - 1]);
      Truthy(data[..|data| - 1], field) + (if v != "" then [v] else [])
  }

  lemma {:induction false} TruthyMembers(data: seq<Transaction>, field: Transaction -> string, x: string)
    ensures x in Truthy(data, field) <==> x != "" && exists t :: t in data && field(t) == x
    decreases |data|
  {
    if data != [] {
      var init := data[..|data| - 1];
      TruthyMembers(init, field, x);
      assert data == init + [data[|data| - 1]];
      if x != "" && exists t :: t in data && field(t) == x {
        var t :| t in data && field(t) == x;
        if t != data[|data| - 1] {
          assert t in init;
        }
      }
    }
  }

  /** Every tag of every record, in order. */
  function AllTags(data: seq<Transaction>): seq<string> {
    if data == [] then [] else AllTags(data[..|data| - 1]) + data[|data| - 1].tags
  }

  lemma {:induction false} AllTagsMembers(data: seq<Transaction>, x: string)
    ensures x in AllTags(data) <==> exists t :: t in data && x in t.tags
    decreases |data|
  {
    if data != [] {
      var init := data[..|data| - 1];
      AllTagsMembers(init, x);
      assert data == init + [data[|data| - 1]];
      if exists t :: t in data && x in t.tags {
        var t :| t in data && x in t.tags;
        if t != data[|data| - 1] {
          assert t in init;
        }
      }
    }
  }

  /** The smallest and the largest age above zero, or `None` when no age is. */
  function MinPositiveAge(data: seq<Transaction>): Option<int> {
    if data == [] then None
    else
      var m := MinPositiveAge(data[..|data| - 1]);
      var a := data[|data| - 1].age;
      if a > 0 then (if m.Some? && m.value <= a then m else Some(a)) else m
  }

  function MaxPositiveAge(data: seq<Transaction>): Option<int> {
    if data == [] then None
    else
      var m := MaxPositiveAge(data[..|data| - 1]);
      var a := data[|data| - 1].age;
      if a > 0 then (if m.Some? && m.value >= a then m else Some(a)) else m
  }

  /** The minimum and maximum are ages of records, bound every positive age,
      and exist exactly when some age is positive. */
  lemma {:induction false} PositiveAgeBounds(data: seq<Transaction>)
    ensures MinPositiveAge(data).Some? <==> exists t :: t in data && t.age > 0
    ensures MaxPositiveAge(data).Some? <==> MinPositiveAge(data).Some?
    ensures MinPositiveAge(data).Some? ==>
      (exists t :: t in data && t.age == MinPositiveAge(data).value) &&
      (forall t :: t in data && t.age > 0 ==> MinPositiveAge(data).value <= t.age)
    ensures MaxPositiveAge(data).Some? ==>
      (exists t :: t in data && t.age == MaxPositiveAge(data).value) &&
      (forall t :: t in data && t.age > 0 ==> MaxPositiveAge(data).value >= t.age)
    decreases |data|
  {
    if data != [] {
      var init := data[..|data| - 1];
      var last := data[|data| - 1];
      PositiveAgeBounds(init);
      assert data == init + [last];
      assert forall t :: t in data ==> t in init || t == last;
      assert forall t :: t in init ==> t in data;
    }
  }

  /** One more record seen by the option pass, for one field's set. */
  lemma TruthySnoc(seen: seq<Transaction>, item: Transaction, field: Transaction -> string)
    ensures Distinct(Truthy(seen + [item], field)) ==
      if field(item) != "" then Add(Distinct(Truthy(seen, field)), field(item))
      else Distinct(Truthy(seen, field))
  {
    var pre := seen + [item];
    assert pre[..|pre| - 1] == seen && pre[|pre| - 1] == item;
    var v := field(item);
    assert Truthy(pre, field) == Truthy(seen, field) + (if v != "" then [v] else []);
    if v != "" {
      DistinctSnoc(Truthy(seen, field), v);
    } else {
      assert Truthy(seen, field) + [] == Truthy(seen, field);
    }
  }

  lemma AllTagsSnoc(seen: seq<Transaction>, item: Transaction)
    ensures AllTags(seen + [item]) == AllTags(seen) + item.tags
  {
    assert (seen + [item])[..|seen|] == seen;
  }

  lemma AgeSnoc(seen: seq<Transaction>, item: Transaction)
    ensures var a := item.age; var m := MinPositiveAge(seen); var n := MaxPositiveAge(seen);
      && MinPositiveAge(seen + [item]) == (if a > 0 then Some(if m.None? then a else Min(m.value, a)) else m)
      && MaxPositiveAge(seen + [item]) == (if a > 0 then Some(if n.None? then a else Max(n.value, a)) else n)
  {
    assert (seen + [item])[..|seen|] == seen;
  }

  lemma AgeStep(data: seq<Transaction>, i: int)
    requires 0 <= i < |data|
    ensures var a := data[i].age; var m := MinPositiveAge(data[..i]); var n := MaxPositiveAge(data[..i]);
      && MinPositiveAge(data[..i + 1]) == (if a > 0 then Some(if m.None? then a else Min(m.value, a)) else m)
      && MaxPositiveAge(data[..i + 1]) == (if a > 0 then Some(if n.None? then a else Max(n.value, a)) else n)
  {
    assert data[..i + 1][..i] == data[..i];
  }

  /** `values.forEach(v => set.add(v))` on a set kept in insertion order
      holding the distinct values of `before`. */
  method AddEach(seen: seq<string>, values: seq<string>, ghost before: seq<string>) returns (r: seq<string>)
    requires seen == Distinct(before)
    ensures r == Distinct(before + values)
  {
    r := seen;
    var j := 0;
    assert before + values[..0] == before;
    while j < |values|
      invariant 0 <= j <= |values|
      invariant r == Distinct(before + values[..j])
    {
      DistinctSnoc(before + values[..j], values[j]);
      assert before + values[..j + 1] == before + values[..j] + [values[j]];
      r := Add(r, values[j]);
      j := j + 1;
    }
    assert values[..j] == values;
  }

  /** What the pass over the records has gathered so far: the five sets, kept
      in insertion order, and the running age bounds (`None` for the
      infinities they start from). */
  datatype Gathered = Gathered(
    regions: seq<string>,
    genders: seq<string>,
    categories: seq<string>,
    tags: seq<string>,
    paymentMethods: seq<string>,
    minAge: Option<int>,
    maxAge: Option<int>)

  /** What the pass has gathered after the records `seen`. */
  function GatheredFrom(seen: seq<Transaction>): Gathered {
    Gathered(
      Distinct(Truthy(seen, RegionOf)),
      Distinct(Truthy(seen, GenderOf)),
      Distinct(Truthy(seen, CategoryOf)),
      Distinct(AllTags(seen)),
      Distinct(Truthy(seen, PaymentOf)),
      MinPositiveAge(seen),
      MaxPositiveAge(seen))
  }

  /** The `forEach` callback of `extractFilterOptions`: adds one record's
      non-empty values and tags to the sets and folds a positive age into the
      bounds. */
  method Visit(g: Gathered, item: Transaction, ghost seen: seq<Transaction>) returns (h: Gathered)
    requires g == GatheredFrom(seen)
    ensures h == GatheredFrom(seen + [item])
  {
    var regions, genders, categories, tags, paymentMethods := g.regions, g.genders, g.categories, g.tags, g.paymentMethods;
    var minAge, maxAge := g.minAge, g.maxAge;
    ghost var next := GatheredFrom(seen + [item]);
    TruthySnoc(seen, item, RegionOf);
    if item.customerRegion != "" {
      regions := Add(regions, item.customerRegion);
    }
    assert regions == next.regions;
    TruthySnoc(seen, item, GenderOf);
    if item.gender != "" {
      genders := Add(genders, item.gender);
    }
    assert genders == next.genders;
    TruthySnoc(seen, item, CategoryOf);
    if item.productCategory != "" {
      categories := Add(categories, item.productCategory);
    }
    assert categories == next.categories;
    TruthySnoc(seen, item, PaymentOf);
    if item.paymentMethod != "" {
      paymentMethods := Add(paymentMethods, item.paymentMethod);
    }
    assert paymentMethods == next.paymentMethods;
    AllTagsSnoc(seen, item);
    tags := AddEach(tags, item.tags, AllTags(seen));
    AgeSnoc(seen, item);
    if item.age > 0 {
      minAge := Some(if minAge.None? then item.age else Min(minAge.value, item.age));
      maxAge := Some(if maxAge.None? then item.age else Max(maxAge.value, item.age));
    }
    h := Gathered(regions, genders, categories, tags, paymentMethods, minAge, maxAge);
  }

  /** `extractFilterOptions`: one pass gathers each record's values into five
      sets and the positive ages into a running minimum and maximum; the sets
      are then listed in sorted order. */
  method ExtractFilterOptions(data: seq<Transaction>) returns (o: FilterOptions)
    ensures o.customerRegions == SortedDistinct(Truthy(data, RegionOf))
    ensures o.genders == SortedDistinct(Truthy(data, GenderOf))
    ensures o.productCategories == SortedDistinct(Truthy(data, CategoryOf))
    ensures o.paymentMethods == SortedDistinct(Truthy(data, PaymentOf))
    ensures o.tags == SortedDistinct(AllTags(data))
    ensures o.ageMin == MinPositiveAge(data).GetOr(0)
    ensures o.ageMax == MaxPositiveAge(data).GetOr(100)
  {
    var g := Gathered([], [], [], [], [], None, None);
    var i := 0;
    while i < |data|
      invariant 0 <= i <= |data|
      invariant g == GatheredFrom(data[..i])
    {
      g := Visit(g, data[i], data[..i]);
      assert data[..i + 1] == data[..i] + [data[i]];
      i := i + 1;
    }
    assert data[..i] == data;
    o := FilterOptions(
      SortBy(g.regions, LexCmp),
      SortBy(g.genders, LexCmp),
      SortBy(g.categories, LexCmp),
      SortBy(g.tags, LexCmp),
      SortBy(g.paymentMethods, LexCmp),
      g.minAge.GetOr(0),
      g.maxAge.GetOr(100));
  }


  /** Each option list is strictly increasing and holds exactly the non-empty
      values of its field; the tag list holds every tag, the empty tag included
      when a record carries one. */
  lemma FilterOptionsSpec(data: seq<Transaction>, x: string)
    ensures StrictlySorted(SortedDistinct(Truthy(data, RegionOf)))
    ensures x in SortedDistinct(Truthy(data, RegionOf)) <==>
      x != "" && exists t :: t in data && t.customerRegion == x
    ensures StrictlySorted(SortedDistinct(Truthy(data, GenderOf)))
    ensures x in SortedDistinct(Truthy(data, GenderOf)) <==>
      x != "" && exists t :: t in data && t.gender == x
    ensures StrictlySorted(SortedDistinct(Truthy(data, CategoryOf)))
    ensures x in SortedDistinct(Truthy(data, CategoryOf)) <==>
      x != "" && exists t :: t in data && t.productCategory == x
    ensures StrictlySorted(SortedDistinct(Truthy(data, PaymentOf)))
    ensures x in SortedDistinct(Truthy(data, PaymentOf)) <==>
      x != "" && exists t :: t in data && t.paymentMethod == x
    ensures StrictlySorted(SortedDistinct(AllTags(data)))
    ensures x in SortedDistinct(AllTags(data)) <==> exists t :: t in data && x in t.tags
  {
    SortedDistinctSpec(Truthy(data, RegionOf));
    TruthyMembers(data, RegionOf, x);
    SortedDistinctSpec(Truthy(data, GenderOf));
    TruthyMembers(data, GenderOf, x);
    SortedDistinctSpec(Truthy(data, CategoryOf));
    TruthyMembers(data, CategoryOf, x);
    SortedDistinctSpec(Truthy(data, PaymentOf));
    TruthyMembers(data, PaymentOf, x);
    SortedDistinctSpec(AllTags(data));
    AllTagsMembers(data, x);
  }

  // =====================================================================
  // Worked examples

  /** A `tags: ["sale"]` filter keeps a record tagged `clearance, sale` and
      drops one tagged only `new`. */
  lemma TagFilterExample(f: Filters, kept: Transaction, dropped: Transaction)
    requires f == Filters([], [], None, None, [], ["sale"], [], None, None)
    requires kept.tags == ["clearance", "sale"] && dropped.tags == ["new"]
    ensures Keeps(f, kept) && !Keeps(f, dropped)
  {
    assert "sale" in f.tags && "sale" in kept.tags;
  }

  /** 23 rows in pages of 10: three pages; page 1 holds 10 rows and has a
      next page but no previous one; page 3 holds the last 3 rows. */
  lemma PaginationExample<T>(data: seq<T>)
    requires |data| == 23
    ensures var p1 := ApplyPagination(data, 1, 10);
      p1.pagination.totalPages == 3 && |p1.data| == 10 &&
      p1.pagination.hasNextPage && !p1.pagination.hasPrevPage
    ensures var p3 := ApplyPagination(data, 3, 10);
      |p3.data| == 3 && p3.data == data[20..] && !p3.pagination.hasNextPage && p3.pagination.hasPrevPage
  {
    assert CeilDiv(23, 10) == 3;
  }

  /** Ages 0, 0, 34, 0, 67: the zeros are skipped and the range is 34..67. */
  lemma AgeRangeExample(data: seq<Transaction>)
    requires |data| == 5
    requires data[0].age == 0 && data[1].age == 0 && data[2].age == 34 && data[3].age == 0 && data[4].age == 67
    ensures MinPositiveAge(data) == Some(34) && MaxPositiveAge(data) == Some(67)
  {
    assert data[..0] == [] && data[..5] == data;
    AgeStep(data, 0);
    AgeStep(data, 1);
    AgeStep(data, 2);
    AgeStep(data, 3);
    AgeStep(data, 4);
  }
}
