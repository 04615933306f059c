/** The client's request builder: the query parameters `fetchSalesData`
    appends for one page of sales, as an ordered list of key/value pairs,
    and how the server reads the list parameters back. */
module Api {
  import opened Wrappers
  import opened Text
  import opened Numbers
  import opened Seqs
  import SS = SalesService

  /** The parameters the client may send, in the order they are appended. */
  datatype QueryKey =
    | Search | CustomerRegion | Gender | ProductCategory | Tags | PaymentMethod
    | AgeMin | AgeMax | DateFrom | DateTo | SortBy | SortOrder | Page | PageSize

  /** The name of a parameter on the wire. */
  function KeyText(k: QueryKey): string {
    match k
    case Search => "search"
    case CustomerRegion => "customerRegion"
    case Gender => "gender"
    case ProductCategory => "productCategory"
    case Tags => "tags"
    case PaymentMethod => "paymentMethod"
    case AgeMin => "ageMin"
    case AgeMax => "ageMax"
    case DateFrom => "dateFrom"
    case DateTo => "dateTo"
    case SortBy => "sortBy"
    case SortOrder => "sortOrder"
    case Page => "page"
    case PageSize => "pageSize"
  }

  /** Different parameters have different names on the wire. */
  lemma KeyTextDistinct(a: QueryKey, b: QueryKey)
    requires a != b
    ensures KeyText(a) != KeyText(b)
  {
  }

  /** The position of a parameter in the fixed append order. */
  function Rank(k: QueryKey): nat {
    match k
    case Search => 0
    case CustomerRegion => 1
    case Gender => 2
    case ProductCategory => 3
    case Tags => 4
    case PaymentMethod => 5
    case AgeMin => 6
    case AgeMax => 7
    case DateFrom => 8
    case DateTo => 9
    case SortBy => 10
    case SortOrder => 11
    case Page => 12
    case PageSize => 13
  }

  /** One appended parameter. */
  datatype Pair = Pair(key: QueryKey, value: string)

  /** What `fetchSalesData` receives: the hook's filters, sort and page.
      A missing string or list is `''` or `[]`, which the builder treats
      alike; a missing `page` or `pageSize` is 0, which is falsy too. */
  datatype FetchParams = FetchParams(
    search: string,
    customerRegion: seq<string>,
    gender: seq<string>,
    productCategory: seq<string>,
    tags: seq<string>,
    paymentMethod: seq<string>,
    ageMin: string,
    ageMax: string,
    dateFrom: string,
    dateTo: string,
    sortBy: string,
    sortOrder: string,
    page: int,
    pageSize: int)

  // ---------------------------------------------------------------------
  // The builder, step by step

  /** `value || fallback` for a number. */
  function OrNumber(n: int, fallback: int): int {
    if n != 0 then n else fallback
  }

  /** The pairs appended by step `j` of the builder, in source order. */
  function Step(p: FetchParams, j: nat): seq<Pair> {
    match j
    case 0 => if p.search != "" then [Pair(Search, p.search)] else []
    case 1 => ListStep(CustomerRegion, p.customerRegion)
    case 2 => ListStep(Gender, p.gender)
    case 3 => ListStep(ProductCategory, p.productCategory)
    case 4 => ListStep(Tags, p.tags)
    case 5 => ListStep(PaymentMethod, p.paymentMethod)
    case 6 => if p.ageMin != "" then [Pair(AgeMin, p.ageMin)] else []
    case 7 => if p.ageMax != "" then [Pair(AgeMax, p.ageMax)] else []
    case 8 => if p.dateFrom != "" then [Pair(DateFrom, p.dateFrom)] else []
    case 9 => if p.dateTo != "" then [Pair(DateTo, p.dateTo)] else []
    case 10 =>
      if p.sortBy != "" then
        [Pair(SortBy, p.sortBy), Pair(SortOrder, if p.sortOrder != "" then p.sortOrder else "asc")]
      else []
    case 11 => [Pair(Page, IntToString(OrNumber(p.page, 1)))]
    case 12 => [Pair(PageSize, IntToString(OrNumber(p.pageSize, 10)))]
    case _ => []
  }

  /** A multi-select list is sent once, joined with commas, when not empty. */
  function ListStep(k: QueryKey, xs: seq<string>): seq<Pair> {
    if |xs| > 0 then [Pair(k, Join(xs, ","))] else []
  }

  /** The pairs after the first `n` steps. */
  function Prefix(p: FetchParams, n: nat): seq<Pair> {
    if n == 0 then [] else Prefix(p, n - 1) + Step(p, n - 1)
  }

  /** Every pair the builder appends. */
  function QueryPairs(p: FetchParams): seq<Pair> {
    Prefix(p, 13)
  }

  /** Steps that append nothing leave the prefix empty. */
  lemma {:induction false} PrefixEmpty(p: FetchParams, n: nat)
    requires forall j :: 0 <= j < n ==> Step(p, j) == []
    ensures Prefix(p, n) == []
    decreases n
  {
    if n > 0 {
      PrefixEmpty(p, n - 1);
    }
  }

  /** `if (value) queryParams.append(key, value)` for a string value. */
  method AppendText(q: seq<Pair>, k: QueryKey, v: string) returns (r: seq<Pair>)
    ensures r == q + (if v != "" then [Pair(k, v)] else [])
  {
    r := q;
    if v != "" {
      r := r + [Pair(k, v)];
    }
  }

  /** `if (xs?.length) queryParams.append(key, xs.join(','))`. */
  method AppendList(q: seq<Pair>, k: QueryKey, xs: seq<string>) returns (r: seq<Pair>)
    ensures r == q + ListStep(k, xs)
  {
    r := q;
    if |xs| > 0 {
      r := r + [Pair(k, Join(xs, ","))];
    }
  }

  /** `fetchSalesData(params)` up to the request: appends to the parameter
      list step by step. */
  method FetchQuery(p: FetchParams) returns (q: seq<Pair>)
    ensures q == QueryPairs(p)
  {
    q := AppendText([], Search, p.search);
    PrefixNext(p, 0, [], q);
    var q0 := q;
    q := AppendList(q, CustomerRegion, p.customerRegion);
    PrefixNext(p, 1, q0, q);
    q0 := q;
    q := AppendList(q, Gender, p.gender);
    PrefixNext(p, 2, q0, q);
    q0 := q;
    q := AppendList(q, ProductCategory, p.productCategory);
    PrefixNext(p, 3, q0, q);
    q0 := q;
    q := AppendList(q, Tags, p.tags);
    PrefixNext(p, 4, q0, q);
    q0 := q;
    q := AppendList(q, PaymentMethod, p.paymentMethod);
    PrefixNext(p, 5, q0, q);
    q0 := q;
    q := AppendText(q, AgeMin, p.ageMin);
    PrefixNext(p, 6, q0, q);
    q0 := q;
    q := AppendText(q, AgeMax, p.ageMax);
    PrefixNext(p, 7, q0, q);
    q0 := q;
    q := AppendText(q, DateFrom, p.dateFrom);
    PrefixNext(p, 8, q0, q);
    q0 := q;
    q := AppendText(q, DateTo, p.dateTo);
    PrefixNext(p, 9, q0, q);
    q0 := q;
    if p.sortBy != "" {
      q := q + [Pair(SortBy, p.sortBy)];
      q := q + [Pair(SortOrder, if p.sortOrder != "" then p.sortOrder else "asc")];
    }
    PrefixNext(p, 10, q0, q);
    q0 := q;
    q := q + [Pair(Page, IntToString(OrNumber(p.page, 1)))];
    PrefixNext(p, 11, q0, q);
    q0 := q;
    q := q + [Pair(PageSize, IntToString(OrNumber(p.pageSize, 10)))];
    PrefixNext(p, 12, q0, q);
  }

  /** One more step of the builder extends the prefix by that step's pairs. */
  lemma PrefixNext(p: FetchParams, n: nat, before: seq<Pair>, after: seq<Pair>)
    requires before == Prefix(p, n) && after == before + Step(p, n)
    ensures after == Prefix(p, n + 1)
  {
  }

  // ---------------------------------------------------------------------
  // Which parameters are sent, and in what order

  /** The builder step that may append `k`. */
  function StepOf(k: QueryKey): nat {
    if Rank(k) <= 10 then Rank(k) else Rank(k) - 1
  }

  /** The value of the first pair with key `k`. */
  function Lookup(q: seq<Pair>, k: QueryKey): Option<string> {
    if |q| == 0 then None
    else if q[0].key == k then Some(q[0].value)
    else Lookup(q[1..], k)
  }

  /** The value a list parameter carries, if it is sent. */
  function ListValue(xs: seq<string>): Option<string> {
    if |xs| > 0 then Some(Join(xs, ",")) else None
  }

  /** A string parameter is sent when it is not empty. */
  function TextValue(s: string): Option<string> {
    if s != "" then Some(s) else None
  }

  /** The rule for each parameter on its own: lists when not empty, search,
      ages and dates when not `''` (so an age of `"0"` is sent), the sort
      order only with a sort key and then defaulting to `asc`, and the page
      and page size always, defaulting to 1 and 10. */
  function Sent(p: FetchParams, k: QueryKey): Option<string> {
    match k
    case Search => TextValue(p.search)
    case CustomerRegion => ListValue(p.customerRegion)
    case Gender => ListValue(p.gender)
    case ProductCategory => ListValue(p.productCategory)
    case Tags => ListValue(p.tags)
    case PaymentMethod => ListValue(p.paymentMethod)
    case AgeMin => TextValue(p.ageMin)
    case AgeMax => TextValue(p.ageMax)
    case DateFrom => TextValue(p.dateFrom)
    case DateTo => TextValue(p.dateTo)
    case SortBy => TextValue(p.sortBy)
    case SortOrder => if p.sortBy == "" then None else Some(if p.sortOrder == "" then "asc" else p.sortOrder)
    case Page => Some(IntToString(if p.page == 0 then 1 else p.page))
    case PageSize => Some(IntToString(if p.pageSize == 0 then 10 else p.pageSize))
  }

  /** Every pair of step `j` carries a key of that step. */
  lemma StepKeys(p: FetchParams, j: nat)
    ensures forall i :: 0 <= i < |Step(p, j)| ==> StepOf(Step(p, j)[i].key) == j
  {
  }

  /** Step `StepOf(k)` appends `k` exactly as the rule for `k` says. */
  lemma StepSends(p: FetchParams, k: QueryKey)
    ensures Lookup(Step(p, StepOf(k)), k) == Sent(p, k)
  {
  }

  /** A step appends no key of another step. */
  lemma StepOthers(p: FetchParams, j: nat, k: QueryKey)
    requires StepOf(k) != j
    ensures Lookup(Step(p, j), k) == None
  {
    StepKeys(p, j);
    LookupMissing(Step(p, j), k);
  }

  lemma {:induction false} LookupAppend(a: seq<Pair>, b: seq<Pair>, k: QueryKey)
    ensures Lookup(a + b, k) == if Lookup(a, k).Some? then Lookup(a, k) else Lookup(b, k)
    decreases |a|
  {
    if |a| == 0 {
      assert a + b == b;
    } else {
      assert (a + b)[0] == a[0] && (a + b)[1..] == a[1..] + b;
      LookupAppend(a[1..], b, k);
    }
  }

  lemma {:induction false} LookupMissing(q: seq<Pair>, k: QueryKey)
    requires forall i :: 0 <= i < |q| ==> q[i].key != k
    ensures Lookup(q, k) == None
    decreases |q|
  {
    if |q| > 0 {
      LookupMissing(q[1..], k);
    }
  }

  /** After `n` steps, `k` has the value its own step gave it, or none if
      that step has not run. */
  lemma {:induction false} LookupPrefix(p: FetchParams, n: nat, k: QueryKey)
    ensures Lookup(Prefix(p, n), k) == if StepOf(k) < n then Lookup(Step(p, StepOf(k)), k) else None
    decreases n
  {
    if n > 0 {
      LookupPrefix(p, n - 1, k);
      LookupAppend(Prefix(p, n - 1), Step(p, n - 1), k);
      if StepOf(k) != n - 1 {
        StepOthers(p, n - 1, k);
      }
    }
  }

  /** Each parameter arrives exactly as its own rule says. */
  lemma QuerySends(p: FetchParams, k: QueryKey)
    ensures Lookup(QueryPairs(p), k) == Sent(p, k)
  {
    LookupPrefix(p, 13, k);
    StepSends(p, k);
  }

  /** Keys strictly follow the append order, so none appears twice. */
  predicate InOrder(q: seq<Pair>) {
    forall i, j :: 0 <= i < j < |q| ==> Rank(q[i].key) < Rank(q[j].key)
  }

  lemma {:induction false} PrefixInOrder(p: FetchParams, n: nat)
    ensures InOrder(Prefix(p, n))
    ensures forall i :: 0 <= i < |Prefix(p, n)| ==> StepOf(Prefix(p, n)[i].key) < n
    decreases n
  {
    if n > 0 {
      PrefixInOrder(p, n - 1);
      StepKeys(p, n - 1);
      assert InOrder(Step(p, n - 1));
      ConcatInOrder(Prefix(p, n - 1), Step(p, n - 1), n - 1);
    }
  }

  /** Pairs of earlier steps followed by pairs of step `m` stay in order. */
  lemma ConcatInOrder(a: seq<Pair>, b: seq<Pair>, m: nat)
    requires InOrder(a) && InOrder(b)
    requires forall i :: 0 <= i < |a| ==> StepOf(a[i].key) < m
    requires forall i :: 0 <= i < |b| ==> StepOf(b[i].key) == m
    ensures InOrder(a + b)
    ensures forall i :: 0 <= i < |a + b| ==> StepOf((a + b)[i].key) <= m
  {
    forall i, j | 0 <= i < j < |a + b| ensures Rank((a + b)[i].key) < Rank((a + b)[j].key) {
      if j < |a| {
        assert (a + b)[i] == a[i] && (a + b)[j] == a[j];
      } else if i < |a| {
        assert (a + b)[i] == a[i] && (a + b)[j] == b[j - |a|];
      } else {
        assert (a + b)[i] == b[i - |a|] && (a + b)[j] == b[j - |a|];
      }
    }
    forall i | 0 <= i < |a + b| ensures StepOf((a + b)[i].key) <= m {
      if i < |a| {
        assert (a + b)[i] == a[i];
      } else {
        assert (a + b)[i] == b[i - |a|];
      }
    }
  }

  /** The request's keys are in the fixed order, each at most once. */
  lemma QueryInOrder(p: FetchParams)
    ensures InOrder(QueryPairs(p))
    ensures forall i, j :: 0 <= i < j < |QueryPairs(p)| ==> QueryPairs(p)[i].key != QueryPairs(p)[j].key
  {
    PrefixInOrder(p, 13);
  }

  // ---------------------------------------------------------------------
  // The server reads the lists back

  /** How the server receives a parameter: absent, or the one string sent. */
  function Received(q: seq<Pair>, k: QueryKey): SS.Param {
    match Lookup(q, k)
    case None => SS.Absent
    case Some(v) => SS.One(v)
  }

  /** A list value that survives joining and splitting: not empty, without a
      comma and without surrounding white space. */
  predicate CleanValues(xs: seq<string>) {
    forall j :: 0 <= j < |xs| ==> Clean(xs[j], {}, {','})
  }

  /** A list joined with commas and read back by `parseArrayParam` is the
      same list. */
  lemma ListRoundTrip(xs: seq<string>)
    requires CleanValues(xs)
    ensures SS.ParseArrayParam(Received([Pair(Tags, Join(xs, ","))], Tags)) == xs
    ensures |xs| > 0 ==> SS.ParseArrayParam(SS.One(Join(xs, ","))) == xs
  {
    var s := Join(xs, ",");
    assert Lookup([Pair(Tags, s)], Tags) == Some(s);
    if |xs| > 0 {
      JoinNotEmpty(xs, ",", {}, {','});
      PiecesOfJoin(xs, ',', {}, {','});
      assert FreeOf(s, {});
      RemoveAllFree(s, {});
      assert Pieces(s, {}, {','}) == Where(TrimAll(SplitOn(s, {','})), NonEmptyText);
      assert SS.ParseArrayParam(SS.One(s)) == Where(TrimAll(SplitOn(s, {','})), NonEmptyText);
    } else {
      assert s == "";
    }
  }

  /** Every clean multi-select list the client holds reaches the server
      unchanged, sent or not. */
  lemma ListsArrive(p: FetchParams, k: QueryKey, xs: seq<string>)
    requires (k == CustomerRegion && xs == p.customerRegion) || (k == Gender && xs == p.gender) ||
      (k == ProductCategory && xs == p.productCategory) || (k == Tags && xs == p.tags) ||
      (k == PaymentMethod && xs == p.paymentMethod)
    requires CleanValues(xs)
    ensures SS.ParseArrayParam(Received(QueryPairs(p), k)) == xs
  {
    QuerySends(p, k);
    assert Sent(p, k) == ListValue(xs);
    ListRoundTrip(xs);
  }
}
