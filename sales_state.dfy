/** The client's view state (`useSalesData`): the current filters, sort and
    page, the pagination of the last answer, and how each action changes
    them. The fetch itself is left to `Api`; here only its parameters. */
module UseSalesData {
  import opened Wrappers
  import opened Numbers
  import FU = FilterUtils
  import Api

  /** The keys of the filter object. */
  datatype FilterName =
    | SearchName | RegionName | GenderName | AgeMinName | AgeMaxName
    | CategoryName | TagsName | PaymentName | DateFromName | DateToName

  /** A filter holds text (search, ages, dates) or a list (multi-selects). */
  datatype FilterValue = Text(s: string) | List(xs: seq<string>)

  /** The filter object: a dictionary from key to value. */
  type FilterState = map<FilterName, FilterValue>

  datatype SortState = SortState(sortBy: string, sortOrder: string)

  /** `initialFilters`: every text empty, every list empty. */
  const InitialFilters: FilterState := map[
    SearchName := Text(""), RegionName := List([]), GenderName := List([]),
    AgeMinName := Text(""), AgeMaxName := Text(""), CategoryName := List([]),
    TagsName := List([]), PaymentName := List([]), DateFromName := Text(""),
    DateToName := Text("")]

  /** `initialSort`: newest first. */
  const InitialSort: SortState := SortState("date", "desc")

  /** The pagination before any answer arrives. */
  const InitialPagination: FU.PageInfo := FU.PageInfo(1, 10, 0, 0, false, false)

  /** The hook asks for pages of ten rows. */
  const PageSize: int := 10

  // ---------------------------------------------------------------------
  // The request the state gives rise to

  /** A text filter as the request reads it; a missing one is `''`. */
  function TextOf(f: FilterState, n: FilterName): string {
    if n in f && f[n].Text? then f[n].s else ""
  }

  /** A list filter as the request reads it; a missing one is `[]`. */
  function ListOf(f: FilterState, n: FilterName): seq<string> {
    if n in f && f[n].List? then f[n].xs else []
  }

  /** `{ ...filters, ...sort, page, pageSize: 10 }`, the argument of
      `fetchSalesData`. */
  function Params(f: FilterState, s: SortState, page: int): Api.FetchParams {
    Api.FetchParams(
      TextOf(f, SearchName), ListOf(f, RegionName), ListOf(f, GenderName),
      ListOf(f, CategoryName), ListOf(f, TagsName), ListOf(f, PaymentName),
      TextOf(f, AgeMinName), TextOf(f, AgeMaxName), TextOf(f, DateFromName), TextOf(f, DateToName),
      s.sortBy, s.sortOrder, page, PageSize)
  }

  /** The request parameter a filter becomes. */
  function KeyOf(n: FilterName): Api.QueryKey {
    match n
    case SearchName => Api.Search
    case RegionName => Api.CustomerRegion
    case GenderName => Api.Gender
    case AgeMinName => Api.AgeMin
    case AgeMaxName => Api.AgeMax
    case CategoryName => Api.ProductCategory
    case TagsName => Api.Tags
    case PaymentName => Api.PaymentMethod
    case DateFromName => Api.DateFrom
    case DateToName => Api.DateTo
  }

  /** What a filter value sends under its parameter. */
  function ValueSent(n: FilterName, v: FilterValue): Option<string> {
    match n
    case RegionName => Api.ListValue(if v.List? then v.xs else [])
    case GenderName => Api.ListValue(if v.List? then v.xs else [])
    case CategoryName => Api.ListValue(if v.List? then v.xs else [])
    case TagsName => Api.ListValue(if v.List? then v.xs else [])
    case PaymentName => Api.ListValue(if v.List? then v.xs else [])
    case _ => Api.TextValue(if v.Text? then v.s else "")
  }

  /** With the initial filters and sort on page 1, the request carries only
      the sort and the paging, in that order. */
  lemma InitialRequest()
    ensures Api.QueryPairs(Params(InitialFilters, InitialSort, 1)) ==
      [Api.Pair(Api.SortBy, "date"), Api.Pair(Api.SortOrder, "desc"),
       Api.Pair(Api.Page, "1"), Api.Pair(Api.PageSize, "10")]
  {
    var p := Params(InitialFilters, InitialSort, 1);
    assert p.search == "" && p.ageMin == "" && p.ageMax == "" && p.dateFrom == "" && p.dateTo == "";
    assert p.customerRegion == [] && p.gender == [] && p.productCategory == [] && p.tags == [] && p.paymentMethod == [];
    forall j | 0 <= j < 10 ensures Api.Step(p, j) == [] {
    }
    Api.PrefixEmpty(p, 10);
    assert DigitChar(1) == '1' && DigitChar(0) == '0';
    assert IntToString(1) == "1";
    assert IntToString(10) == NatToDecimal(1) + [DigitChar(0)] == "10";
    assert Api.Step(p, 10) == [Api.Pair(Api.SortBy, "date"), Api.Pair(Api.SortOrder, "desc")];
    assert Api.Step(p, 11) == [Api.Pair(Api.Page, "1")];
    assert Api.Step(p, 12) == [Api.Pair(Api.PageSize, "10")];
    assert Api.Prefix(p, 13) == Api.Step(p, 10) + Api.Step(p, 11) + Api.Step(p, 12);
  }

  /** What the filters send under the parameter of filter `m`. */
  function SentOf(f: FilterState, m: FilterName): Option<string> {
    if m in f then ValueSent(m, f[m]) else None
  }

  /** Each filter's parameter carries exactly what that filter sends. */
  lemma ParamsSend(f: FilterState, s: SortState, page: int, m: FilterName)
    ensures Api.Sent(Params(f, s, page), KeyOf(m)) == SentOf(f, m)
  {
    match m
    case SearchName =>
    case RegionName =>
    case GenderName =>
    case AgeMinName =>
    case AgeMaxName =>
    case CategoryName =>
    case TagsName =>
    case PaymentName =>
    case DateFromName =>
    case DateToName =>
  }

  /** The filter behind a request parameter, if any. */
  function NameOf(k: Api.QueryKey): (r: Option<FilterName>)
    ensures r.Some? ==> KeyOf(r.value) == k
    ensures forall n :: KeyOf(n) == k ==> r == Some(n)
  {
    match k
    case Search => Some(SearchName)
    case CustomerRegion => Some(RegionName)
    case Gender => Some(GenderName)
    case ProductCategory => Some(CategoryName)
    case Tags => Some(TagsName)
    case PaymentMethod => Some(PaymentName)
    case AgeMin => Some(AgeMinName)
    case AgeMax => Some(AgeMaxName)
    case DateFrom => Some(DateFromName)
    case DateTo => Some(DateToName)
    case _ => None
  }

  /** Changing one filter changes only its own request parameter, which then
      carries the new value. */
  lemma FilterChangeSent(f: FilterState, s: SortState, page: int, n: FilterName, v: FilterValue, k: Api.QueryKey)
    ensures Api.Sent(Params(f[n := v], s, page), k) ==
      if k == KeyOf(n) then ValueSent(n, v) else Api.Sent(Params(f, s, page), k)
  {
    var g := f[n := v];
    match NameOf(k)
    case Some(m) =>
      ParamsSend(f, s, page, m);
      ParamsSend(g, s, page, m);
      if m != n {
        assert SentOf(g, m) == SentOf(f, m);
      }
    case None =>
      assert Params(g, s, page).sortBy == Params(f, s, page).sortBy;
      assert Params(g, s, page).sortOrder == Params(f, s, page).sortOrder;
  }

  // ---------------------------------------------------------------------
  // Page steps

  /** The page after `nextPage`: one further only when the last answer said
      there is a next page. */
  function NextPageOf(page: int, info: FU.PageInfo): int {
    if info.hasNextPage then page + 1 else page
  }

  /** The page after `prevPage`: one back only when the last answer said
      there is a previous page. */
  function PrevPageOf(page: int, info: FU.PageInfo): int {
    if info.hasPrevPage then page - 1 else page
  }

  /** The server's flags for page `page` of `total` pages. */
  predicate Answers(info: FU.PageInfo, page: int, total: int) {
    (info.hasNextPage <==> page < total) && (info.hasPrevPage <==> page > 1)
  }

  /** Stepping forward or back by the server's flags never leaves the range
      of existing pages: from a page in `1..total` the step lands in
      `1..total`, and from page 1 of no pages it stays at 1. */
  lemma PageStepsStayInRange(page: int, total: int, info: FU.PageInfo)
    requires Answers(info, page, total)
    requires 1 <= page <= (if total > 1 then total else 1)
    ensures 1 <= NextPageOf(page, info) <= (if total > 1 then total else 1)
    ensures 1 <= PrevPageOf(page, info) <= (if total > 1 then total else 1)
    ensures NextPageOf(page, info) != page <==> page < total
    ensures PrevPageOf(page, info) != page <==> page > 1
  {
  }

  // ---------------------------------------------------------------------
  // The state and its actions

  class SalesData {
    var filters: FilterState
    var sort: SortState
    var page: int
    var pagination: FU.PageInfo

    /** The state on mount. */
    constructor()
      ensures filters == InitialFilters && sort == InitialSort && page == 1
      ensures pagination == InitialPagination
    {
      filters := InitialFilters;
      sort := InitialSort;
      page := 1;
      pagination := InitialPagination;
    }

    /** The parameters the next fetch sends. */
    function Request(): (r: Api.FetchParams)
      reads this
      ensures r.page == page && r.pageSize == PageSize
      ensures r.sortBy == sort.sortBy && r.sortOrder == sort.sortOrder
    {
      Params(filters, sort, page)
    }

    /** `setSearch(term)`: the search text changes, page back to 1. */
    method SetSearch(term: string)
      modifies this
      ensures filters == old(filters)[SearchName := Text(term)]
      ensures page == 1 && sort == old(sort) && pagination == old(pagination)
    {
      filters := filters[SearchName := Text(term)];
      page := 1;
    }

    /** `updateFilter(name, value)`: only the named filter changes, page
        back to 1. */
    method UpdateFilter(n: FilterName, v: FilterValue)
      modifies this
      ensures filters == old(filters)[n := v]
      ensures page == 1 && sort == old(sort) && pagination == old(pagination)
    {
      filters := filters[n := v];
      page := 1;
    }

    /** `resetFilters()`: the initial filters again, page back to 1. */
    method ResetFilters()
      modifies this
      ensures filters == InitialFilters
      ensures page == 1 && sort == old(sort) && pagination == old(pagination)
    {
      filters := InitialFilters;
      page := 1;
    }

    /** `updateSort(sortBy, sortOrder = 'asc')`: both parts of the sort are
        replaced, page back to 1. */
    method UpdateSort(sortBy: string, sortOrder: Option<string>)
      modifies this
      ensures sort == SortState(sortBy, sortOrder.GetOr("asc"))
      ensures page == 1 && filters == old(filters) && pagination == old(pagination)
    {
      sort := SortState(sortBy, sortOrder.GetOr("asc"));
      page := 1;
    }

    /** `goToPage(n)`: any page, unchecked. */
    method GoToPage(n: int)
      modifies this
      ensures page == n
      ensures filters == old(filters) && sort == old(sort) && pagination == old(pagination)
    {
      page := n;
    }

    /** `nextPage()`. */
    method NextPage()
      modifies this
      ensures page == NextPageOf(old(page), old(pagination))
      ensures filters == old(filters) && sort == old(sort) && pagination == old(pagination)
    {
      if pagination.hasNextPage {
        page := page + 1;
      }
    }

    /** `prevPage()`. */
    method PrevPage()
      modifies this
      ensures page == PrevPageOf(old(page), old(pagination))
      ensures filters == old(filters) && sort == old(sort) && pagination == old(pagination)
    {
      if pagination.hasPrevPage {
        page := page - 1;
      }
    }

    /** A successful answer replaces the pagination (`setPagination`). */
    method Receive(info: FU.PageInfo)
      modifies this
      ensures pagination == info
      ensures filters == old(filters) && sort == old(sort) && page == old(page)
    {
      pagination := info;
    }
  }
}
