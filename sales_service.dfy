/** The store query path: the query documents built from a request, what they
    select from a store of documents, and the summary, page, option lists and
    single-record lookup computed from what they select. */
module SalesService {
  import opened Wrappers
  import opened Text
  import opened Numbers
  import opened Seqs
  import opened Records
  import opened FilterUtils

  // =====================================================================
  // Query documents and what they select

  /** The string fields a query names. */
  datatype StrField =
    | CustomerName | PhoneNumber | TransactionId | CustomerId | EmployeeName | ProductId
    | CustomerRegion | Gender | ProductCategory | PaymentMethod

  function FieldName(f: StrField): string {
    match f
    case CustomerName => "customerName"
    case PhoneNumber => "phoneNumber"
    case TransactionId => "transactionId"
    case CustomerId => "customerId"
    case EmployeeName => "employeeName"
    case ProductId => "productId"
    case CustomerRegion => "customerRegion"
    case Gender => "gender"
    case ProductCategory => "productCategory"
    case PaymentMethod => "paymentMethod"
  }

  function FieldOf(t: Transaction, f: StrField): string {
    match f
    case CustomerName => t.customerName
    case PhoneNumber => t.phoneNumber
    case TransactionId => t.transactionId
    case CustomerId => t.customerId
    case EmployeeName => t.employeeName
    case ProductId => t.productId
    case CustomerRegion => t.customerRegion
    case Gender => t.gender
    case ProductCategory => t.productCategory
    case PaymentMethod => t.paymentMethod
  }

  /** A number placed in a query by `parseInt`: an integer or `NaN`. */
  datatype Num = Int(value: int) | NaN

  /** One key of a query document with the condition stored under it. */
  datatype Cond =
    | Pattern(field: StrField, word: string)              // field: /\bword/i
    | In(field: StrField, values: seq<string>)            // field: { $in: values }
    | TagsIn(tagValues: seq<string>)                      // tags: { $in: values }
    | AgeRange(gte: Option<Num>, lte: Option<Num>)        // age: { $gte, $lte }
    | DateRange(from: Option<string>, to: Option<string>) // date: { $gte, $lte }
    | AnyOf(alts: seq<Query>)                             // $or: [ ... ]
    | AllOf(parts: seq<Query>)                            // $and: [ ... ]

  /** A query document: its entries in key insertion order. */
  datatype Query = Query(conds: seq<Cond>)

  /** The key names a query document uses: a string field, `tags`, `age`,
      `date`, `$or` and `$and`. */
  datatype KeyName = FieldKey(f: StrField) | TagsKey | AgeKey | DateKey | OrKey | AndKey

  function Key(c: Cond): KeyName {
    match c
    case Pattern(f, _) => FieldKey(f)
    case In(f, _) => FieldKey(f)
    case TagsIn(_) => TagsKey
    case AgeRange(_, _) => AgeKey
    case DateRange(_, _) => DateKey
    case AnyOf(_) => OrKey
    case AllOf(_) => AndKey
  }

  /** `\b` at position `i` of `s`: a word character on exactly one side. */
  predicate AtBoundary(s: string, i: int)
    requires 0 <= i <= |s|
  {
    (i > 0 && IsWordChar(s[i - 1])) != (i < |s| && IsWordChar(s[i]))
  }

  /** The case-insensitive pattern `\bw` matches somewhere in `s`; the word is
      read literally. */
  predicate BoundaryPrefix(s: string, w: string) {
    exists i :: 0 <= i && i + |w| <= |s| && AtBoundary(s, i) && Lower(s[i..i + |w|]) == Lower(w)
  }

  /** `$gte` / `$lte` against an integer field: `NaN` matches no integer. */
  predicate AtLeast(a: int, n: Num) {
    n.Int? && a >= n.value
  }

  predicate AtMost(a: int, n: Num) {
    n.Int? && a <= n.value
  }

  /** Whether a record satisfies one entry of a query document. */
  predicate Holds(c: Cond, t: Transaction)
    decreases c
  {
    match c
    case Pattern(f, w) => BoundaryPrefix(FieldOf(t, f), w)
    case In(f, vs) => FieldOf(t, f) in vs
    case TagsIn(vs) => exists tag :: tag in t.tags && tag in vs
    case AgeRange(lo, hi) =>
      (lo.Some? ==> AtLeast(t.age, lo.value)) && (hi.Some? ==> AtMost(t.age, hi.value))
    case DateRange(lo, hi) =>
      (lo.Some? ==> LexCmp(t.date, lo.value) >= 0) && (hi.Some? ==> LexCmp(t.date, hi.value) <= 0)
    case AnyOf(alts) => exists q :: q in alts && Matches(q, t)
    case AllOf(parts) => forall q :: q in parts ==> Matches(q, t)
  }

  /** A record matches a document when it satisfies every entry; `{}` matches everything. */
  predicate Matches(q: Query, t: Transaction)
    decreases q
  {
    forall c :: c in q.conds ==> Holds(c, t)
  }

  // =====================================================================
  // Assigning keys and spreading documents

  predicate HasKey(cs: seq<Cond>, k: KeyName) {
    exists c :: c in cs && Key(c) == k
  }

  /** No key occurs twice, as in every JavaScript object. */
  predicate UniqueKeys(cs: seq<Cond>) {
    cs == [] || (UniqueKeys(cs[..|cs| - 1]) && !HasKey(cs[..|cs| - 1], Key(cs[|cs| - 1])))
  }

  /** `query[key] = value`: the entry under the same key is replaced where it
      stands, otherwise the entry is appended. */
  function Put(cs: seq<Cond>, c: Cond): seq<Cond> {
    if cs == [] then [c]
    else if Key(cs[0]) == Key(c) then [c] + cs[1..]
    else [cs[0]] + Put(cs[1..], c)
  }

  /** The entry stored under `k`, if any. */
  function Get(cs: seq<Cond>, k: KeyName): Option<Cond> {
    if cs == [] then None
    else if Key(cs[0]) == k then Some(cs[0])
    else Get(cs[1..], k)
  }

  /** `{ ...a, ...b }`: the entries of `b` assigned into a copy of `a`, in order. */
  function Spread(a: Query, b: Query): Query
    decreases |b.conds|
  {
    if b.conds == [] then a
    else
      var init := Query(b.conds[..|b.conds| - 1]);
      Query(Put(Spread(a, init).conds, b.conds[|b.conds| - 1]))
  }

  /** Assigning a new key appends it, and nothing was stored under it before. */
  lemma {:induction false} PutAbsent(cs: seq<Cond>, c: Cond)
    requires !HasKey(cs, Key(c))
    ensures Put(cs, c) == cs + [c]
    ensures Get(cs, Key(c)) == None
    decreases |cs|
  {
    if cs != [] {
      assert cs[0] in cs;
      assert forall d :: d in cs[1..] ==> d in cs;
      PutAbsent(cs[1..], c);
    }
  }

  /** Assigning the key of the last entry replaces that entry, which `Get` finds. */
  lemma {:induction false} PutLast(cs: seq<Cond>, a: Cond, c: Cond)
    requires !HasKey(cs, Key(a)) && Key(c) == Key(a)
    ensures Put(cs + [a], c) == cs + [c]
    ensures Get(cs + [a], Key(a)) == Some(a)
    decreases |cs|
  {
    if cs != [] {
      assert cs[0] in cs;
      assert forall d :: d in cs[1..] ==> d in cs;
      PutLast(cs[1..], a, c);
      assert (cs + [a])[1..] == cs[1..] + [a];
    }
  }

  /** Spreading a document whose keys are new keeps both documents' entries
      side by side. */
  lemma {:induction false} SpreadDisjoint(a: Query, b: Query)
    requires UniqueKeys(b.conds)
    requires forall c :: c in b.conds ==> !HasKey(a.conds, Key(c))
    ensures Spread(a, b) == Query(a.conds + b.conds)
    decreases |b.conds|
  {
    if b.conds != [] {
      var init := b.conds[..|b.conds| - 1];
      var last := b.conds[|b.conds| - 1];
      assert forall c :: c in init ==> c in b.conds;
      SpreadDisjoint(a, Query(init));
      assert last in b.conds;
      assert !HasKey(a.conds + init, Key(last));
      PutAbsent(a.conds + init, last);
      assert a.conds + init + [last] == a.conds + b.conds;
    }
  }

  /** Side-by-side entries match exactly when both documents match. */
  lemma MatchesConcat(a: Query, b: Query, t: Transaction)
    ensures Matches(Query(a.conds + b.conds), t) <==> Matches(a, t) && Matches(b, t)
  {
  }

  // =====================================================================
  // buildSearchQuery

  /** The six alternatives of one word, in the order of the searchable fields. */
  function WordAlternatives(w: string): seq<Query> {
    [Query([Pattern(CustomerName, w)]), Query([Pattern(PhoneNumber, w)]),
     Query([Pattern(TransactionId, w)]), Query([Pattern(CustomerId, w)]),
     Query([Pattern(EmployeeName, w)]), Query([Pattern(ProductId, w)])]
  }

  /** The `$or` over the six searchable fields for one word. */
  function WordQuery(w: string): Query {
    Query([AnyOf(WordAlternatives(w))])
  }

  /** The query for the words of a non-blank term: a single word's `$or`
      itself, or `$and` of one `$or` per word, in word order. */
  function WordsQuery(words: seq<string>): Query {
    if |words| == 1 then WordQuery(words[0])
    else Query([AllOf(seq(|words|, i requires 0 <= i < |words| => WordQuery(words[i])))])
  }

  /** `buildSearchQuery(searchTerm)`; an absent term is the empty string. */
  function BuildSearchQuery(term: string): Query {
    if Trim(term) == "" then Query([]) else WordsQuery(SplitWs(SearchQuery(term)))
  }

  /** Some searchable field matches `\bw` case-insensitively. */
  predicate WordFound(t: Transaction, w: string) {
    exists f :: f in SearchFields(t) && BoundaryPrefix(f, w)
  }

  /** What the search query asks of a record: nothing for a blank term,
      otherwise every query word found in some field, each word on its own. */
  predicate SearchHolds(term: string, t: Transaction) {
    Trim(term) == "" || forall w :: w in SplitWs(SearchQuery(term)) ==> WordFound(t, w)
  }

  lemma PatternHolds(f: StrField, w: string, t: Transaction)
    ensures Matches(Query([Pattern(f, w)]), t) <==> BoundaryPrefix(FieldOf(t, f), w)
  {
    assert Pattern(f, w) in [Pattern(f, w)];
  }

  /** The `k`-th alternative tests the `k`-th searchable field. */
  lemma AlternativeFields(w: string, t: Transaction)
    ensures |WordAlternatives(w)| == 6
    ensures forall k :: 0 <= k < 6 ==> (Matches(WordAlternatives(w)[k], t) <==> BoundaryPrefix(SearchFields(t)[k], w))
  {
    PatternHolds(CustomerName, w, t);
    PatternHolds(PhoneNumber, w, t);
    PatternHolds(TransactionId, w, t);
    PatternHolds(CustomerId, w, t);
    PatternHolds(EmployeeName, w, t);
    PatternHolds(ProductId, w, t);
  }

  lemma AlternativesHold(w: string, t: Transaction)
    ensures Matches(WordQuery(w), t) <==> WordFound(t, w)
  {
    var alts := WordAlternatives(w);
    var fs := SearchFields(t);
    AlternativeFields(w, t);
    if WordFound(t, w) {
      var f :| f in fs && BoundaryPrefix(f, w);
      var k :| 0 <= k < 6 && fs[k] == f;
      assert alts[k] in alts;
    }
    if Holds(AnyOf(alts), t) {
      var q :| q in alts && Matches(q, t);
      var k :| 0 <= k < 6 && alts[k] == q;
      assert fs[k] in fs;
    }
    assert WordQuery(w).conds == [AnyOf(alts)];
  }

  /** The query for the words matches a record exactly when every word is found
      in some searchable field. */
  lemma WordsQueryMeaning(words: seq<string>, t: Transaction)
    requires |words| >= 1
    ensures Matches(WordsQuery(words), t) <==> forall w :: w in words ==> WordFound(t, w)
  {
    forall w | w in words ensures Matches(WordQuery(w), t) <==> WordFound(t, w) {
      AlternativesHold(w, t);
    }
    if |words| == 1 {
      assert forall w :: w in words ==> w == words[0];
      assert words[0] in words;
    } else {
      var parts := seq(|words|, i requires 0 <= i < |words| => WordQuery(words[i]));
      assert WordsQuery(words).conds == [AllOf(parts)];
      if forall w :: w in words ==> WordFound(t, w) {
        forall q | q in parts ensures Matches(q, t) {
          var i :| 0 <= i < |parts| && parts[i] == q;
          assert words[i] in words;
        }
      }
      if Holds(AllOf(parts), t) {
        forall w | w in words ensures WordFound(t, w) {
          var i :| 0 <= i < |words| && words[i] == w;
          assert parts[i] in parts;
        }
      }
    }
  }

  /** The search query matches a record exactly when the term is blank or every
      word of the lower-cased, trimmed term is found in some searchable field;
      different words may be found in different fields. */
  lemma SearchQueryMeaning(term: string, t: Transaction)
    ensures Matches(BuildSearchQuery(term), t) <==> SearchHolds(term, t)
  {
    if Trim(term) != "" {
      WordsQueryMeaning(SplitWs(SearchQuery(term)), t);
    }
  }

  lemma WordsQueryKeys(words: seq<string>)
    requires |words| >= 1
    ensures |WordsQuery(words).conds| == 1
    ensures forall c :: c in WordsQuery(words).conds ==> Key(c) == OrKey || Key(c) == AndKey
  {
  }

  /** The search query holds at most one entry, under `$or` or `$and`. */
  lemma SearchQueryKeys(term: string)
    ensures |BuildSearchQuery(term).conds| <= 1
    ensures forall c :: c in BuildSearchQuery(term).conds ==> Key(c) == OrKey || Key(c) == AndKey
  {
    if Trim(term) != "" {
      WordsQueryKeys(SplitWs(SearchQuery(term)));
    }
  }

  // =====================================================================
  // buildFilterQuery

  /** A filter value is used when it is given and not `''`. */
  predicate Given(s: Option<string>) {
    s.Some? && s.value != ""
  }

  /** `parseInt(s)` as it lands in the query. */
  function ParseNum(s: string): Num {
    var n := ParseIntAuto(s);
    if n.Some? then Int(n.value) else NaN
  }

  /** `{ ...query.age, $gte: n }` and `{ ...query.age, $lte: n }`. */
  function WithGte(prev: Option<Cond>, n: Num): Cond {
    AgeRange(Some(n), if prev.Some? && prev.value.AgeRange? then prev.value.lte else None)
  }

  function WithLte(prev: Option<Cond>, n: Num): Cond {
    AgeRange(if prev.Some? && prev.value.AgeRange? then prev.value.gte else None, Some(n))
  }

  /** `{ ...query.date, $gte: s }` and `{ ...query.date, $lte: s }`. */
  function WithFrom(prev: Option<Cond>, s: string): Cond {
    DateRange(Some(s), if prev.Some? && prev.value.DateRange? then prev.value.to else None)
  }

  function WithTo(prev: Option<Cond>, s: string): Cond {
    DateRange(if prev.Some? && prev.value.DateRange? then prev.value.from else None, Some(s))
  }

  function NumBound(s: Option<string>): Option<Num> {
    if Given(s) then Some(ParseNum(s.value)) else None
  }

  function TextBound(s: Option<string>): Option<string> {
    if Given(s) then Some(s.value) else None
  }

  /** The entry step `k` of `buildFilterQuery` leaves in the query: steps 0-4
      are the five lists, step 5 the age bounds and step 6 the date bounds. */
  function StepEntry(f: Filters, k: nat): Option<Cond> {
    match k
    case 0 => if |f.customerRegion| > 0 then Some(In(CustomerRegion, f.customerRegion)) else None
    case 1 => if |f.gender| > 0 then Some(In(Gender, f.gender)) else None
    case 2 => if |f.productCategory| > 0 then Some(In(ProductCategory, f.productCategory)) else None
    case 3 => if |f.tags| > 0 then Some(TagsIn(f.tags)) else None
    case 4 => if |f.paymentMethod| > 0 then Some(In(PaymentMethod, f.paymentMethod)) else None
    case 5 =>
      if Given(f.ageMin) || Given(f.ageMax) then Some(AgeRange(NumBound(f.ageMin), NumBound(f.ageMax))) else None
    case 6 =>
      if Given(f.dateFrom) || Given(f.dateTo) then Some(DateRange(TextBound(f.dateFrom), TextBound(f.dateTo))) else None
    case _ => None
  }

  /** The step that assigns a key; keys no step assigns come after all of them. */
  function StepOf(k: KeyName): nat {
    match k
    case FieldKey(CustomerRegion) => 0
    case FieldKey(Gender) => 1
    case FieldKey(ProductCategory) => 2
    case TagsKey => 3
    case FieldKey(PaymentMethod) => 4
    case AgeKey => 5
    case DateKey => 6
    case _ => 7
  }

  function Entries(o: Option<Cond>): seq<Cond> {
    if o.Some? then [o.value] else []
  }

  /** The filter document after the first `n` steps. */
  function FilterDoc(f: Filters, n: nat): seq<Cond> {
    if n == 0 then [] else FilterDoc(f, n - 1) + Entries(StepEntry(f, n - 1))
  }

  /** The filter document: one entry per active list in the order the code
      checks them, then one `age` entry holding whichever age bounds are given,
      then one `date` entry likewise. */
  function FilterConds(f: Filters): seq<Cond> {
    FilterDoc(f, 7)
  }

  lemma StepKey(f: Filters, k: nat)
    requires StepEntry(f, k).Some?
    ensures k < 7 && StepOf(Key(StepEntry(f, k).value)) == k
  {
  }

  /** After `n` steps every key was assigned by one of them, and only once. */
  lemma {:induction false} FilterDocKeys(f: Filters, n: nat)
    ensures UniqueKeys(FilterDoc(f, n))
    ensures forall c :: c in FilterDoc(f, n) ==> StepOf(Key(c)) < n
    decreases n
  {
    if n > 0 {
      var before := FilterDoc(f, n - 1);
      FilterDocKeys(f, n - 1);
      var e := StepEntry(f, n - 1);
      assert FilterDoc(f, n) == before + Entries(e);
      if e.Some? {
        StepKey(f, n - 1);
        AppendFreshKey(before, e.value, n - 1);
        assert Entries(e) == [e.value];
      } else {
        assert before + Entries(e) == before;
      }
    }
  }

  /** Appending an entry whose step comes after every earlier key's keeps
      the keys unique. */
  lemma AppendFreshKey(before: seq<Cond>, v: Cond, m: nat)
    requires UniqueKeys(before)
    requires forall c :: c in before ==> StepOf(Key(c)) < m
    requires StepOf(Key(v)) == m
    ensures UniqueKeys(before + [v])
    ensures forall c :: c in before + [v] ==> StepOf(Key(c)) <= m
  {
    assert (before + [v])[..|before|] == before;
  }

  /** A list step assigns a key no earlier step used, so it appends. */
  lemma ListStep(f: Filters, k: nat, before: seq<Cond>, after: seq<Cond>)
    requires k < 5 && before == FilterDoc(f, k)
    requires after == if StepEntry(f, k).Some? then Put(before, StepEntry(f, k).value) else before
    ensures after == FilterDoc(f, k + 1)
  {
    FilterDocKeys(f, k);
    if StepEntry(f, k).Some? {
      StepKey(f, k);
      PutAbsent(before, StepEntry(f, k).value);
    }
  }

  /** Assigning `$gte` then `$lte` under an absent `age` key appends one entry
      holding the bounds that were assigned. */
  lemma AgeAssignments(cs: seq<Cond>, lo: Option<Num>, hi: Option<Num>)
    requires !HasKey(cs, AgeKey)
    ensures var withMin := if lo.Some? then Put(cs, WithGte(Get(cs, AgeKey), lo.value)) else cs;
      var withMax := if hi.Some? then Put(withMin, WithLte(Get(withMin, AgeKey), hi.value)) else withMin;
      withMax == cs + (if lo.Some? || hi.Some? then [AgeRange(lo, hi)] else [])
  {
    if lo.Some? {
      var first := AgeRange(lo, None);
      PutAbsent(cs, first);
      if hi.Some? {
        PutLast(cs, first, WithLte(Some(first), hi.value));
      }
    } else if hi.Some? {
      PutAbsent(cs, WithLte(None, hi.value));
    }
  }

  /** The same for `date`. */
  lemma DateAssignments(cs: seq<Cond>, lo: Option<string>, hi: Option<string>)
    requires !HasKey(cs, DateKey)
    ensures var withFrom := if lo.Some? then Put(cs, WithFrom(Get(cs, DateKey), lo.value)) else cs;
      var withTo := if hi.Some? then Put(withFrom, WithTo(Get(withFrom, DateKey), hi.value)) else withFrom;
      withTo == cs + (if lo.Some? || hi.Some? then [DateRange(lo, hi)] else [])
  {
    if lo.Some? {
      var first := DateRange(lo, None);
      PutAbsent(cs, first);
      if hi.Some? {
        PutLast(cs, first, WithTo(Some(first), hi.value));
      }
    } else if hi.Some? {
      PutAbsent(cs, WithTo(None, hi.value));
    }
  }

  /** The `$gte` then `$lte` assignments under `age` leave step 5's entry. */
  lemma AgeStep(f: Filters)
    ensures var cs := FilterDoc(f, 5);
      var withMin := if Given(f.ageMin) then Put(cs, WithGte(Get(cs, AgeKey), ParseNum(f.ageMin.value))) else cs;
      var withMax := if Given(f.ageMax) then Put(withMin, WithLte(Get(withMin, AgeKey), ParseNum(f.ageMax.value))) else withMin;
      withMax == FilterDoc(f, 6)
  {
    var cs := FilterDoc(f, 5);
    assert FilterDoc(f, 6) == cs + Entries(StepEntry(f, 5));
    FilterDocKeys(f, 5);
    assert !HasKey(cs, AgeKey);
    AgeAssignments(cs, NumBound(f.ageMin), NumBound(f.ageMax));
  }

  /** The `$gte` then `$lte` assignments under `date` leave step 6's entry. */
  lemma DateStep(f: Filters)
    ensures var cs := FilterDoc(f, 6);
      var withFrom := if Given(f.dateFrom) then Put(cs, WithFrom(Get(cs, DateKey), f.dateFrom.value)) else cs;
      var withTo := if Given(f.dateTo) then Put(withFrom, WithTo(Get(withFrom, DateKey), f.dateTo.value)) else withFrom;
      withTo == FilterDoc(f, 7)
  {
    var cs := FilterDoc(f, 6);
    assert FilterDoc(f, 7) == cs + Entries(StepEntry(f, 6));
    FilterDocKeys(f, 6);
    assert !HasKey(cs, DateKey);
    DateAssignments(cs, TextBound(f.dateFrom), TextBound(f.dateTo));
  }

  /** `buildFilterQuery(filters)`: one key assignment per active filter; the
      age and date assignments spread the entry already under their key. */
  method BuildFilterQuery(f: Filters) returns (q: Query)
    ensures q.conds == FilterConds(f)
  {
    q := Query([]);
    var before := q.conds;
    if |f.customerRegion| > 0 {
      q := Query(Put(q.conds, In(CustomerRegion, f.customerRegion)));
    }
    ListStep(f, 0, before, q.conds);
    before := q.conds;
    if |f.gender| > 0 {
      q := Query(Put(q.conds, In(Gender, f.gender)));
    }
    ListStep(f, 1, before, q.conds);
    before := q.conds;
    if |f.productCategory| > 0 {
      q := Query(Put(q.conds, In(ProductCategory, f.productCategory)));
    }
    ListStep(f, 2, before, q.conds);
    before := q.conds;
    if |f.tags| > 0 {
      q := Query(Put(q.conds, TagsIn(f.tags)));
    }
    ListStep(f, 3, before, q.conds);
    before := q.conds;
    if |f.paymentMethod| > 0 {
      q := Query(Put(q.conds, In(PaymentMethod, f.paymentMethod)));
    }
    ListStep(f, 4, before, q.conds);
    AgeStep(f);
    if Given(f.ageMin) {
      q := Query(Put(q.conds, WithGte(Get(q.conds, AgeKey), ParseNum(f.ageMin.value))));
    }
    if Given(f.ageMax) {
      q := Query(Put(q.conds, WithLte(Get(q.conds, AgeKey), ParseNum(f.ageMax.value))));
    }
    assert q.conds == FilterDoc(f, 6);
    DateStep(f);
    if Given(f.dateFrom) {
      q := Query(Put(q.conds, WithFrom(Get(q.conds, DateKey), f.dateFrom.value)));
    }
    if Given(f.dateTo) {
      q := Query(Put(q.conds, WithTo(Get(q.conds, DateKey), f.dateTo.value)));
    }
  }

  /** What the filter document asks of a record, filter by filter: list
      membership for the non-empty lists, a shared tag for the tag list, the
      age bounds compared as integers (a bound `parseInt` cannot read matches
      nothing), and the date bounds compared as strings. */
  predicate StoreKeeps(f: Filters, t: Transaction) {
    && (|f.customerRegion| > 0 ==> t.customerRegion in f.customerRegion)
    && (|f.gender| > 0 ==> t.gender in f.gender)
    && (|f.productCategory| > 0 ==> t.productCategory in f.productCategory)
    && (|f.tags| > 0 ==> exists tag :: tag in t.tags && tag in f.tags)
    && (|f.paymentMethod| > 0 ==> t.paymentMethod in f.paymentMethod)
    && (Given(f.ageMin) ==> ParseIntAuto(f.ageMin.value).Some? && t.age >= ParseIntAuto(f.ageMin.value).value)
    && (Given(f.ageMax) ==> ParseIntAuto(f.ageMax.value).Some? && t.age <= ParseIntAuto(f.ageMax.value).value)
    && (Given(f.dateFrom) ==> LexCmp(t.date, f.dateFrom.value) >= 0)
    && (Given(f.dateTo) ==> LexCmp(t.date, f.dateTo.value) <= 0)
  }

  /** Step `k`'s entry, if any, holds. */
  predicate StepHolds(f: Filters, k: nat, t: Transaction) {
    StepEntry(f, k).None? || Holds(StepEntry(f, k).value, t)
  }

  lemma {:induction false} FilterDocMeaning(f: Filters, n: nat, t: Transaction)
    ensures Matches(Query(FilterDoc(f, n)), t) <==> forall k :: 0 <= k < n ==> StepHolds(f, k, t)
    decreases n
  {
    if n > 0 {
      var e := Entries(StepEntry(f, n - 1));
      FilterDocMeaning(f, n - 1, t);
      MatchesConcat(Query(FilterDoc(f, n - 1)), Query(e), t);
      assert Matches(Query(e), t) <==> StepHolds(f, n - 1, t) by {
        if StepEntry(f, n - 1).Some? {
          assert StepEntry(f, n - 1).value in e;
        }
      }
      if Matches(Query(FilterDoc(f, n)), t) {
        forall k | 0 <= k < n ensures StepHolds(f, k, t) {
          if k < n - 1 {
          }
        }
      }
    }
  }

  lemma ListStepsMeaning(f: Filters, t: Transaction)
    ensures StepHolds(f, 0, t) <==> (|f.customerRegion| > 0 ==> t.customerRegion in f.customerRegion)
    ensures StepHolds(f, 1, t) <==> (|f.gender| > 0 ==> t.gender in f.gender)
    ensures StepHolds(f, 2, t) <==> (|f.productCategory| > 0 ==> t.productCategory in f.productCategory)
  {
  }

  lemma MoreListStepsMeaning(f: Filters, t: Transaction)
    ensures StepHolds(f, 3, t) <==> (|f.tags| > 0 ==> exists tag :: tag in t.tags && tag in f.tags)
    ensures StepHolds(f, 4, t) <==> (|f.paymentMethod| > 0 ==> t.paymentMethod in f.paymentMethod)
  {
  }

  lemma AgeStepMeaning(f: Filters, t: Transaction)
    ensures StepHolds(f, 5, t) <==>
      (&& (Given(f.ageMin) ==> ParseIntAuto(f.ageMin.value).Some? && t.age >= ParseIntAuto(f.ageMin.value).value)
       && (Given(f.ageMax) ==> ParseIntAuto(f.ageMax.value).Some? && t.age <= ParseIntAuto(f.ageMax.value).value))
  {
    BoundMeaning(f.ageMin, t.age);
    BoundMeaning(f.ageMax, t.age);
    AgeEntryHolds(f, t);
  }

  /** Step 5 holds exactly when each bound it carries is met. */
  lemma AgeEntryHolds(f: Filters, t: Transaction)
    ensures StepHolds(f, 5, t) <==>
      (NumBound(f.ageMin).Some? ==> AtLeast(t.age, NumBound(f.ageMin).value)) &&
      (NumBound(f.ageMax).Some? ==> AtMost(t.age, NumBound(f.ageMax).value))
  {
    if Given(f.ageMin) || Given(f.ageMax) {
      AgeEntry(f);
    } else {
      assert NumBound(f.ageMin).None? && NumBound(f.ageMax).None?;
    }
  }

  lemma AgeEntry(f: Filters)
    requires Given(f.ageMin) || Given(f.ageMax)
    ensures StepEntry(f, 5) == Some(AgeRange(NumBound(f.ageMin), NumBound(f.ageMax)))
  {
  }

  /** One age bound: absent, or a number the age reaches. */
  lemma BoundMeaning(s: Option<string>, a: int)
    ensures (NumBound(s).Some? ==> AtLeast(a, NumBound(s).value)) <==>
      (Given(s) ==> ParseIntAuto(s.value).Some? && a >= ParseIntAuto(s.value).value)
    ensures (NumBound(s).Some? ==> AtMost(a, NumBound(s).value)) <==>
      (Given(s) ==> ParseIntAuto(s.value).Some? && a <= ParseIntAuto(s.value).value)
  {
  }

  lemma DateStepMeaning(f: Filters, t: Transaction)
    ensures StepHolds(f, 6, t) <==>
      (&& (Given(f.dateFrom) ==> LexCmp(t.date, f.dateFrom.value) >= 0)
       && (Given(f.dateTo) ==> LexCmp(t.date, f.dateTo.value) <= 0))
  {
  }

  /** The filter document matches exactly the records `StoreKeeps` accepts. */
  lemma FilterQueryMeaning(f: Filters, t: Transaction)
    ensures Matches(Query(FilterConds(f)), t) <==> StoreKeeps(f, t)
  {
    FilterDocMeaning(f, 7, t);
    ListStepsMeaning(f, t);
    MoreListStepsMeaning(f, t);
    AgeStepMeaning(f, t);
    DateStepMeaning(f, t);
    SevenSteps(f, t);
  }

  /** All seven steps hold exactly when each of them does. */
  lemma SevenSteps(f: Filters, t: Transaction)
    ensures (forall k :: 0 <= k < 7 ==> StepHolds(f, k, t)) <==>
      (&& StepHolds(f, 0, t) && StepHolds(f, 1, t) && StepHolds(f, 2, t) && StepHolds(f, 3, t)
       && StepHolds(f, 4, t) && StepHolds(f, 5, t) && StepHolds(f, 6, t))
  {
    if StepHolds(f, 0, t) && StepHolds(f, 1, t) && StepHolds(f, 2, t) && StepHolds(f, 3, t)
       && StepHolds(f, 4, t) && StepHolds(f, 5, t) && StepHolds(f, 6, t)
    {
      forall k | 0 <= k < 7 ensures StepHolds(f, k, t) {
        assert k == 0 || k == 1 || k == 2 || k == 3 || k == 4 || k == 5 || k == 6;
      }
    }
  }

  /** The filter document never uses the search keys and assigns each key once. */
  lemma FilterQueryKeys(f: Filters)
    ensures UniqueKeys(FilterConds(f))
    ensures forall c :: c in FilterConds(f) ==> Key(c) != OrKey && Key(c) != AndKey
  {
    FilterDocKeys(f, 7);
  }

  // =====================================================================
  // parseArrayParam

  /** A query-string value: absent, one string, or repeated into an array. */
  datatype Param = Absent | One(text: string) | Many(items: seq<string>)

  /** `parseArrayParam(param)`. */
  function ParseArrayParam(p: Param): seq<string> {
    match p
    case Absent => []
    case Many(xs) => xs
    case One(s) => if s == "" then [] else Where(TrimAll(SplitOn(s, {','})), NonEmptyText)
  }

  /** An array passes through; a string gives its comma-separated pieces,
      trimmed, without the empty ones: no piece is empty, holds a comma or
      starts or ends with white space. */
  lemma ParseArrayParamSpec(p: Param)
    ensures p.Absent? ==> ParseArrayParam(p) == []
    ensures p.Many? ==> ParseArrayParam(p) == p.items
    ensures p.One? ==> forall x :: x in ParseArrayParam(p) ==>
      x != "" && FreeOf(x, {','}) && !IsWs(x[0]) && !IsWs(x[|x| - 1])
    ensures p.One? ==> forall x :: x in ParseArrayParam(p) ==>
      exists piece :: piece in SplitOn(p.text, {','}) && Trim(piece) == x
    ensures p.One? ==> forall piece :: piece in SplitOn(p.text, {','}) && Trim(piece) != "" ==>
      Trim(piece) in ParseArrayParam(p)
    ensures p.One? ==> IsSubsequence(ParseArrayParam(p), TrimAll(SplitOn(p.text, {','})))
  {
    if p.One? {
      PiecesSound(p.text);
      PiecesKept(p.text);
    }
  }

  /** Each kept piece is the trimmed form of a piece of the text, and so is
      not empty, holds no comma and has no white space at either end. */
  lemma PiecesSound(s: string)
    ensures forall x :: x in ParseArrayParam(One(s)) ==>
      x != "" && FreeOf(x, {','}) && !IsWs(x[0]) && !IsWs(x[|x| - 1])
    ensures forall x :: x in ParseArrayParam(One(s)) ==>
      exists piece :: piece in SplitOn(s, {','}) && Trim(piece) == x
  {
    if s != "" {
      var pieces := SplitOn(s, {','});
      var trimmed := TrimAll(pieces);
      SplitOnFree(s, {','});
      forall x | x in ParseArrayParam(One(s))
        ensures x != "" && FreeOf(x, {','}) && !IsWs(x[0]) && !IsWs(x[|x| - 1])
        ensures exists piece :: piece in pieces && Trim(piece) == x
      {
        WhereMembers(trimmed, NonEmptyText, x);
        var i :| 0 <= i < |trimmed| && trimmed[i] == x;
        assert pieces[i] in pieces;
        TrimSpec(pieces[i]);
        TrimFree(pieces[i], {','});
      }
    }
  }

  /** Every non-empty trimmed piece of the text is kept, and the kept pieces
      come in the order of the text. */
  lemma PiecesKept(s: string)
    ensures forall piece :: piece in SplitOn(s, {','}) && Trim(piece) != "" ==>
      Trim(piece) in ParseArrayParam(One(s))
    ensures IsSubsequence(ParseArrayParam(One(s)), TrimAll(SplitOn(s, {','})))
  {
    var pieces := SplitOn(s, {','});
    var trimmed := TrimAll(pieces);
    if s == "" {
      assert pieces == [""];
      assert Trim("") == "";
    } else {
      assert ParseArrayParam(One(s)) == Where(trimmed, NonEmptyText);
      WhereIsSubsequence(trimmed, NonEmptyText);
      forall piece | piece in pieces && Trim(piece) != ""
        ensures Trim(piece) in Where(trimmed, NonEmptyText)
      {
        var i :| 0 <= i < |pieces| && pieces[i] == piece;
        assert trimmed[i] == Trim(piece);
        WhereMembers(trimmed, NonEmptyText, Trim(piece));
      }
    }
  }

  // =====================================================================
  // getSalesData

  /** A stored document: the record and the store's `_id`. */
  datatype Doc = Doc(id: nat, rec: Transaction)

  /** `map(({ _id, ...rest }) => rest)`. */
  function Strip(ds: seq<Doc>): (r: seq<Transaction>)
    ensures |r| == |ds| && forall i :: 0 <= i < |ds| ==> r[i] == ds[i].rec
  {
    seq(|ds|, i requires 0 <= i < |ds| => ds[i].rec)
  }

  function DocMatcher(q: Query): Doc -> bool {
    (d: Doc) => Matches(q, d.rec)
  }

  /** `find(q)` in the store's natural order. */
  function Find(store: seq<Doc>, q: Query): seq<Doc> {
    Where(store, DocMatcher(q))
  }

  /** The request parameters; `None` stands for an absent one. */
  datatype SalesParams = SalesParams(
    search: string,
    customerRegion: Param,
    gender: Param,
    ageMin: Option<string>,
    ageMax: Option<string>,
    productCategory: Param,
    tags: Param,
    paymentMethod: Param,
    dateFrom: Option<string>,
    dateTo: Option<string>,
    sortBy: Option<string>,
    sortOrder: Option<string>,
    page: Option<int>,
    pageSize: Option<int>)

  /** The filter object handed to `buildFilterQuery`. */
  function ParamFilters(p: SalesParams): Filters {
    Filters(ParseArrayParam(p.customerRegion), ParseArrayParam(p.gender), p.ageMin, p.ageMax,
      ParseArrayParam(p.productCategory), ParseArrayParam(p.tags), ParseArrayParam(p.paymentMethod),
      p.dateFrom, p.dateTo)
  }

  /** What the request selects: the search and every filter at once. */
  predicate Selects(p: SalesParams, t: Transaction) {
    SearchHolds(p.search, t) && StoreKeeps(ParamFilters(p), t)
  }

  function SelectsFn(p: SalesParams): Doc -> bool {
    (d: Doc) => Selects(p, d.rec)
  }

  /** The search and the filter documents share no key, so spreading them
      into one query asks for both. */
  lemma FinalQueryMeaning(p: SalesParams, t: Transaction)
    ensures Matches(Spread(BuildSearchQuery(p.search), Query(FilterConds(ParamFilters(p)))), t) <==> Selects(p, t)
  {
    var s := BuildSearchQuery(p.search);
    var f := Query(FilterConds(ParamFilters(p)));
    SearchQueryKeys(p.search);
    FilterQueryKeys(ParamFilters(p));
    SpreadDisjoint(s, f);
    MatchesConcat(s, f, t);
    SearchQueryMeaning(p.search, t);
    FilterQueryMeaning(ParamFilters(p), t);
  }

  /** `find` with the final query returns the selected documents in store order. */
  lemma FindSelects(store: seq<Doc>, p: SalesParams)
    ensures Find(store, Spread(BuildSearchQuery(p.search), Query(FilterConds(ParamFilters(p))))) ==
      Where(store, SelectsFn(p))
  {
    var finalQuery := Spread(BuildSearchQuery(p.search), Query(FilterConds(ParamFilters(p))));
    forall d | d in store ensures DocMatcher(finalQuery)(d) == SelectsFn(p)(d) {
      FinalQueryMeaning(p, d.rec);
    }
    WhereSame(store, DocMatcher(finalQuery), SelectsFn(p));
  }

  // ---------------------------------------------------------------------
  // Summary

  datatype Totals = Totals(units: int, amount: real, finalAmount: real)

  datatype Summary = Summary(
    totalUnitsSold: int,
    totalAmount: real,
    totalFinalAmount: real,
    totalDiscount: real,
    recordCount: int)

  function SumQuantity(ds: seq<Doc>): int {
    if ds == [] then 0 else SumQuantity(ds[..|ds| - 1]) + ds[|ds| - 1].rec.quantity
  }

  function SumTotalAmount(ds: seq<Doc>): real {
    if ds == [] then 0.0 else SumTotalAmount(ds[..|ds| - 1]) + ds[|ds| - 1].rec.totalAmount
  }

  function SumFinalAmount(ds: seq<Doc>): real {
    if ds == [] then 0.0 else SumFinalAmount(ds[..|ds| - 1]) + ds[|ds| - 1].rec.finalAmount
  }

  /** The `$group` stage: one group over the matched documents, or no group at
      all when none matched. */
  function GroupTotals(ds: seq<Doc>): Option<Totals> {
    if ds == [] then None else Some(Totals(SumQuantity(ds), SumTotalAmount(ds), SumFinalAmount(ds)))
  }

  /** Each total is additive over consecutive runs of documents. */
  lemma {:induction false} SumsAppend(a: seq<Doc>, b: seq<Doc>)
    ensures SumQuantity(a + b) == SumQuantity(a) + SumQuantity(b)
    ensures SumTotalAmount(a + b) == SumTotalAmount(a) + SumTotalAmount(b)
    ensures SumFinalAmount(a + b) == SumFinalAmount(a) + SumFinalAmount(b)
    decreases |b|
  {
    if b == [] {
      assert a + b == a;
    } else {
      var init := b[..|b| - 1];
      SumsAppend(a, init);
      assert (a + b)[..|a + b| - 1] == a + init;
    }
  }

  // ---------------------------------------------------------------------
  // Sorting

  datatype SortKey = ByDate | ByCustomerName | ByQuantity | ByFinalAmount

  /** The one entry of the sort object: the key and `1` or `-1`. */
  datatype SortEntry = SortEntry(key: SortKey, dir: int)

  function SortKeyName(k: SortKey): string {
    match k
    case ByDate => "date"
    case ByCustomerName => "customerName"
    case ByQuantity => "quantity"
    case ByFinalAmount => "finalAmount"
  }

  /** The store's order on one key: strings in binary order, numbers by value. */
  function StoreCompare(s: SortEntry, a: Doc, b: Doc): int {
    match s.key
    case ByDate => LexCmp(a.rec.date, b.rec.date) * s.dir
    case ByCustomerName => LexCmp(a.rec.customerName, b.rec.customerName) * s.dir
    case ByQuantity => (a.rec.quantity - b.rec.quantity) * s.dir
    case ByFinalAmount => Sign(a.rec.finalAmount - b.rec.finalAmount) * s.dir
  }

  function StoreComparator(s: SortEntry): (Doc, Doc) -> int {
    (a, b) => StoreCompare(s, a, b)
  }

  /** `sort(sortObj)`: the empty sort object keeps the natural order, and ties
      keep it too. */
  function StoreOrder(ds: seq<Doc>, s: Option<SortEntry>): seq<Doc> {
    if s.None? then ds else SortBy(ds, StoreComparator(s.value))
  }

  /** The sort object for the request's `sortBy` and `sortOrder`. */
  function SortSpec(sortBy: string, sortOrder: string): (r: Option<SortEntry>)
    ensures r.Some? <==> sortBy in {"date", "customerName", "quantity", "finalAmount"}
    ensures r.Some? ==> SortKeyName(r.value.key) == sortBy
    ensures r.Some? ==> r.value.dir == if sortOrder == "asc" then 1 else -1
  {
    var dir := if sortOrder == "asc" then 1 else -1;
    if sortBy == "date" then Some(SortEntry(ByDate, dir))
    else if sortBy == "customerName" then Some(SortEntry(ByCustomerName, dir))
    else if sortBy == "quantity" then Some(SortEntry(ByQuantity, dir))
    else if sortBy == "finalAmount" then Some(SortEntry(ByFinalAmount, dir))
    else None
  }

  // ---------------------------------------------------------------------
  // The request

  /** The skip is negative exactly for the pages below 1. */
  lemma NegativeSkip(page: int, size: int)
    requires size >= 1
    ensures (page - 1) * size < 0 <==> page < 1
  {
    if page >= 1 {
      MulMono(0, page - 1, size);
    } else {
      MulMono(page - 1, -1, size);
    }
  }

  /** `skip((page - 1) * size).limit(size)` for a page of at least 1. */
  function PageRows<T>(rows: seq<T>, page: int, size: int): seq<T>
    requires page >= 1 && size >= 1
  {
    Window(rows, PageStart(page, size), size)
  }

  datatype SalesPage = SalesPage(data: seq<Transaction>, summary: Summary, pagination: PageInfo)

  /** `getSalesData(params)` over the store `store`. The page is not clamped; a
      page below 1 makes the skip negative, which the store refuses (`None`). */
  method GetSalesData(store: seq<Doc>, p: SalesParams) returns (r: Option<SalesPage>)
    requires p.pageSize.GetOr(10) >= 1
    ensures r.None? <==> p.page.GetOr(1) < 1
    ensures r.Some? ==>
      var matched := Where(store, SelectsFn(p));
      var page := p.page.GetOr(1);
      var size := p.pageSize.GetOr(10);
      var sorted := StoreOrder(matched, SortSpec(p.sortBy.GetOr("date"), p.sortOrder.GetOr("desc")));
      && r.value.data == Strip(PageRows(sorted, page, size))
      && r.value.summary == Summary(SumQuantity(matched), SumTotalAmount(matched), SumFinalAmount(matched),
                                    SumTotalAmount(matched) - SumFinalAmount(matched), |matched|)
      && r.value.pagination.currentPage == page
      && r.value.pagination.pageSize == size
      && r.value.pagination.totalItems == |matched|
      && r.value.pagination.totalPages == CeilDiv(|matched|, size)
      && (r.value.pagination.hasNextPage <==> page < CeilDiv(|matched|, size))
      && (r.value.pagination.hasPrevPage <==> page > 1)
  {
    var sortBy := p.sortBy.GetOr("date");
    var sortOrder := p.sortOrder.GetOr("desc");
    var searchQuery := BuildSearchQuery(p.search);
    var filterQuery := BuildFilterQuery(ParamFilters(p));
    var finalQuery := Spread(searchQuery, filterQuery);
    FindSelects(store, p);
    var found := Find(store, finalQuery);

    var totalItems := |found|;
    var totals := GroupTotals(found).GetOr(Totals(0, 0.0, 0.0));
    var summary := Summary(totals.units, totals.amount, totals.finalAmount, 0.0, 0);
    summary := summary.(totalDiscount := summary.totalAmount - summary.totalFinalAmount);
    summary := summary.(recordCount := totalItems);

    var sortObj: Option<SortEntry> := None;
    var dir := if sortOrder == "asc" then 1 else -1;
    if sortBy == "date" {
      sortObj := Some(SortEntry(ByDate, dir));
    } else if sortBy == "customerName" {
      sortObj := Some(SortEntry(ByCustomerName, dir));
    } else if sortBy == "quantity" {
      sortObj := Some(SortEntry(ByQuantity, dir));
    } else if sortBy == "finalAmount" {
      sortObj := Some(SortEntry(ByFinalAmount, dir));
    }
    assert sortObj == SortSpec(sortBy, sortOrder);

    var pageNum := p.page.GetOr(1);
    var pageSizeNum := p.pageSize.GetOr(10);
    var skip := (pageNum - 1) * pageSizeNum;
    NegativeSkip(pageNum, pageSizeNum);
    if skip < 0 {
      r := None;
      return;
    }
    var data := Window(StoreOrder(found, sortObj), skip, pageSizeNum);
    assert data == PageRows(StoreOrder(found, sortObj), pageNum, pageSizeNum);
    var cleanData := Strip(data);
    var totalPages := CeilDiv(totalItems, pageSizeNum);
    r := Some(SalesPage(cleanData, summary,
      PageInfo(pageNum, pageSizeNum, totalItems, totalPages, pageNum < totalPages, pageNum > 1)));
  }

  /** Every row of every page is a selected record, and reading pages
      `1..totalPages` in turn gives each selected document exactly once, in
      the sorted order. */
  lemma StorePagesCover(matched: seq<Doc>, s: Option<SortEntry>, size: nat)
    requires size >= 1
    ensures FirstPages(StoreOrder(matched, s), size, CeilDiv(|matched|, size)) == StoreOrder(matched, s)
    ensures multiset(StoreOrder(matched, s)) == multiset(matched)
  {
    var sorted := StoreOrder(matched, s);
    if s.Some? {
      SortByPermutes(matched, StoreComparator(s.value));
    }
    assert |sorted| == |multiset(sorted)| == |matched|;
    PagesCover(sorted, size, CeilDiv(|matched|, size));
  }

  /** A page past the last one is empty rather than moved back to the last. */
  lemma PagePastEnd<T>(rows: seq<T>, page: int, size: int)
    requires size >= 1 && page > CeilDiv(|rows|, size)
    ensures PageRows(rows, page, size) == []
  {
    var tp := CeilDiv(|rows|, size);
    MulMono(tp, page - 1, size);
    assert PageStart(page, size) >= |rows|;
  }

  // ---------------------------------------------------------------------
  // Sort order on the store

  lemma StoreOrderConsistent(ds: seq<Doc>, s: SortEntry)
    requires s.dir == 1 || s.dir == -1
    ensures ConsistentOn(StoreComparator(s), ds)
  {
    var cmp := StoreComparator(s);
    if s.key.ByDate? || s.key.ByCustomerName? {
      forall a, b | a in ds && b in ds ensures cmp(a, b) < 0 <==> cmp(b, a) > 0 {
        LexCmpAntisymmetric(a.rec.date, b.rec.date);
        LexCmpAntisymmetric(a.rec.customerName, b.rec.customerName);
      }
      forall a, b, c | a in ds && b in ds && c in ds && cmp(a, b) <= 0 && cmp(b, c) <= 0
        ensures cmp(a, c) <= 0
      {
        var x, y, z := a.rec.date, b.rec.date, c.rec.date;
        if s.key.ByCustomerName? {
          x, y, z := a.rec.customerName, b.rec.customerName, c.rec.customerName;
        }
        if s.dir == 1 {
          LexCmpTransitive(x, y, z);
        } else {
          LexCmpAntisymmetric(x, y);
          LexCmpAntisymmetric(y, z);
          LexCmpAntisymmetric(x, z);
          LexCmpTransitive(z, y, x);
        }
      }
    }
  }

  /** The sorted documents are the matched ones, ordered by the key: ascending
      for `'asc'` and descending otherwise, strings in binary order. */
  lemma StoreOrderSorted(ds: seq<Doc>, s: SortEntry)
    requires s.dir == 1 || s.dir == -1
    ensures var r := StoreOrder(ds, Some(s));
      multiset(r) == multiset(ds) &&
      forall i, j :: 0 <= i < j < |r| ==> StoreCompare(s, r[i], r[j]) <= 0
  {
    StoreOrderConsistent(ds, s);
    SortBySorted(ds, StoreComparator(s));
    SortByPermutes(ds, StoreComparator(s));
  }

  /** `date` with `'asc'` sorts the date strings ascending. */
  lemma StoreDateAscending(ds: seq<Doc>)
    ensures var r := StoreOrder(ds, SortSpec("date", "asc"));
      forall i, j :: 0 <= i < j < |r| ==> LexCmp(r[i].rec.date, r[j].rec.date) <= 0
  {
    StoreOrderSorted(ds, SortEntry(ByDate, 1));
  }

  // =====================================================================
  // getFilterOptions

  /** The values of one field, document by document. */
  function Column(ds: seq<Doc>, field: Transaction -> string): (r: seq<string>)
    ensures |r| == |ds| && forall i :: 0 <= i < |ds| ==> r[i] == field(ds[i].rec)
  {
    seq(|ds|, i requires 0 <= i < |ds| => field(ds[i].rec))
  }

  /** Every tag of every document, in order. */
  function TagColumn(ds: seq<Doc>): seq<string> {
    if ds == [] then [] else TagColumn(ds[..|ds| - 1]) + ds[|ds| - 1].rec.tags
  }

  /** `distinct(field)` followed by `filter(Boolean).sort()`. */
  function Listing(values: seq<string>): seq<string> {
    SortBy(Where(Distinct(values), NonEmptyText), LexCmp)
  }

  /** The smallest and the largest age over all documents (`$min`, `$max`). */
  function MinAge(ds: seq<Doc>): Option<int> {
    if ds == [] then None
    else
      var m := MinAge(ds[..|ds| - 1]);
      var a := ds[|ds| - 1].rec.age;
      if m.Some? && m.value <= a then m else Some(a)
  }

  function MaxAge(ds: seq<Doc>): Option<int> {
    if ds == [] then None
    else
      var m := MaxAge(ds[..|ds| - 1]);
      var a := ds[|ds| - 1].rec.age;
      if m.Some? && m.value >= a then m else Some(a)
  }

  /** `x || d` for a number that may be missing: `0` and a missing value give `d`. */
  function OrDefault(x: Option<int>, d: int): int {
    if x.Some? && x.value != 0 then x.value else d
  }

  /** `getFilterOptions()` over the store `store`. */
  function GetFilterOptions(store: seq<Doc>): FilterOptions {
    FilterOptions(
      Listing(Column(store, RegionOf)),
      Listing(Column(store, GenderOf)),
      Listing(Column(store, CategoryOf)),
      Listing(TagColumn(store)),
      Listing(Column(store, PaymentOf)),
      OrDefault(MinAge(store), 0),
      OrDefault(MaxAge(store), 100))
  }

  /** `$min` over the ages: present exactly for a non-empty store, one of the
      ages, and no larger than any of them. */
  lemma {:induction false} MinAgeSpec(ds: seq<Doc>)
    ensures MinAge(ds).Some? <==> ds != []
    ensures MinAge(ds).Some? ==>
      (exists d :: d in ds && d.rec.age == MinAge(ds).value) &&
      (forall d :: d in ds ==> MinAge(ds).value <= d.rec.age)
    decreases |ds|
  {
    if ds != [] {
      var init, last := ds[..|ds| - 1], ds[|ds| - 1];
      MinAgeSpec(init);
      assert ds == init + [last];
      assert forall d :: d in ds ==> d in init || d == last;
      var m := MinAge(init);
      if m.Some? && m.value <= last.rec.age {
        var w :| w in init && w.rec.age == m.value;
        assert w in ds;
      } else {
        assert last in ds;
      }
    }
  }

  /** `$max` over the ages, the mirror of `MinAgeSpec`. */
  lemma {:induction false} MaxAgeSpec(ds: seq<Doc>)
    ensures MaxAge(ds).Some? <==> ds != []
    ensures MaxAge(ds).Some? ==>
      (exists d :: d in ds && d.rec.age == MaxAge(ds).value) &&
      (forall d :: d in ds ==> MaxAge(ds).value >= d.rec.age)
    decreases |ds|
  {
    if ds != [] {
      var init, last := ds[..|ds| - 1], ds[|ds| - 1];
      MaxAgeSpec(init);
      assert ds == init + [last];
      assert forall d :: d in ds ==> d in init || d == last;
      var m := MaxAge(init);
      if m.Some? && m.value >= last.rec.age {
        var w :| w in init && w.rec.age == m.value;
        assert w in ds;
      } else {
        assert last in ds;
      }
    }
  }

  /** The age range of `getFilterOptions`: the least age, or 0 when the store
      is empty or that age is 0; the greatest age, or 100 when the store is
      empty or that age is 0. */
  lemma FilterOptionAges(store: seq<Doc>)
    ensures store == [] ==> GetFilterOptions(store).ageMin == 0 && GetFilterOptions(store).ageMax == 100
    ensures forall d :: d in store && (forall e :: e in store ==> d.rec.age <= e.rec.age) ==>
      GetFilterOptions(store).ageMin == (if d.rec.age == 0 then 0 else d.rec.age)
    ensures forall d :: d in store && (forall e :: e in store ==> d.rec.age >= e.rec.age) ==>
      GetFilterOptions(store).ageMax == (if d.rec.age == 0 then 100 else d.rec.age)
  {
    MinAgeSpec(store);
    MaxAgeSpec(store);
    forall d | d in store && (forall e :: e in store ==> d.rec.age <= e.rec.age)
      ensures MinAge(store) == Some(d.rec.age)
    {
      var w :| w in store && w.rec.age == MinAge(store).value;
      assert d.rec.age <= w.rec.age;
    }
    forall d | d in store && (forall e :: e in store ==> d.rec.age >= e.rec.age)
      ensures MaxAge(store) == Some(d.rec.age)
    {
      var w :| w in store && w.rec.age == MaxAge(store).value;
      assert d.rec.age >= w.rec.age;
    }
  }

  lemma {:induction false} TagColumnMembers(ds: seq<Doc>, x: string)
    ensures x in TagColumn(ds) <==> exists d :: d in ds && x in d.rec.tags
    decreases |ds|
  {
    if ds != [] {
      var init, last := ds[..|ds| - 1], ds[|ds| - 1];
      TagColumnMembers(init, x);
      assert ds == init + [last];
      assert forall d :: d in ds ==> d in init || d == last;
      if exists d :: d in init && x in d.rec.tags {
        var d :| d in init && x in d.rec.tags;
        assert d in ds;
      }
    }
  }

  lemma ColumnHas(ds: seq<Doc>, field: Transaction -> string, x: string)
    ensures StrictlySorted(Listing(Column(ds, field)))
    ensures x in Listing(Column(ds, field)) <==> x != "" && exists d :: d in ds && field(d.rec) == x
  {
    var c := Column(ds, field);
    ListingSpec(c);
    if x in c {
      var i :| 0 <= i < |c| && c[i] == x;
      assert ds[i] in ds;
    }
    if exists d :: d in ds && field(d.rec) == x {
      var d :| d in ds && field(d.rec) == x;
      var i :| 0 <= i < |ds| && ds[i] == d;
      assert c[i] == x;
    }
  }

  /** The five option lists of `getFilterOptions`: each strictly increasing,
      each holding exactly the non-empty values its field takes in the store. */
  lemma FilterOptionLists(store: seq<Doc>, x: string)
    ensures var o := GetFilterOptions(store);
      && StrictlySorted(o.customerRegions) && StrictlySorted(o.genders) && StrictlySorted(o.productCategories)
      && StrictlySorted(o.tags) && StrictlySorted(o.paymentMethods)
      && (x in o.customerRegions <==> x != "" && exists d :: d in store && d.rec.customerRegion == x)
      && (x in o.genders <==> x != "" && exists d :: d in store && d.rec.gender == x)
      && (x in o.productCategories <==> x != "" && exists d :: d in store && d.rec.productCategory == x)
      && (x in o.paymentMethods <==> x != "" && exists d :: d in store && d.rec.paymentMethod == x)
      && (x in o.tags <==> x != "" && exists d :: d in store && x in d.rec.tags)
  {
    ColumnHas(store, RegionOf, x);
    ColumnHas(store, GenderOf, x);
    ColumnHas(store, CategoryOf, x);
    ColumnHas(store, PaymentOf, x);
    ListingSpec(TagColumn(store));
    TagColumnMembers(store, x);
  }

  /** A listing is strictly increasing and holds exactly the non-empty values. */
  lemma ListingSpec(values: seq<string>)
    ensures StrictlySorted(Listing(values))
    ensures forall x :: x in Listing(values) <==> x in values && x != ""
  {
    var d := Distinct(values);
    var w := Where(d, NonEmptyText);
    var r := Listing(values);
    DistinctSpec(values);
    forall x ensures x in w <==> x in d && x != "" {
      WhereMembers(d, NonEmptyText, x);
    }
    WhereNoDuplicates(d, NonEmptyText);
    LexCmpConsistent(w);
    SortBySorted(w, LexCmp);
    SortByPermutes(w, LexCmp);
    PermutationMembers(w, r);
    PermutationNoDuplicates(w, r);
    forall i, j | 0 <= i < j < |r| ensures LexCmp(r[i], r[j]) < 0 {
      LexCmpZeroIsEqual(r[i], r[j]);
    }
  }

  /** The listing depends only on which values occur: whatever order `distinct`
      returns them in, the sorted listing is the same. */
  lemma ListingOrderFree(a: seq<string>, b: seq<string>)
    requires forall x :: x in a <==> x in b
    ensures Listing(a) == Listing(b)
  {
    ListingSpec(a);
    ListingSpec(b);
    StrictlySortedUnique(Listing(a), Listing(b));
  }

  /** `getTransactionById(id)`: the first document with that id, without its
      `_id`, or `None` for `null`. */
  function GetTransactionById(store: seq<Doc>, id: string): Option<Transaction> {
    if store == [] then None
    else if store[0].rec.transactionId == id then Some(store[0].rec)
    else GetTransactionById(store[1..], id)
  }

  /** A lookup finds a record exactly when one carries the id, and then returns
      the first such record in store order. */
  lemma {:induction false} GetTransactionByIdSpec(store: seq<Doc>, id: string)
    ensures GetTransactionById(store, id).None? <==> forall d :: d in store ==> d.rec.transactionId != id
    ensures GetTransactionById(store, id).Some? ==>
      exists k :: 0 <= k < |store| && store[k].rec == GetTransactionById(store, id).value &&
        store[k].rec.transactionId == id &&
        forall j :: 0 <= j < k ==> store[j].rec.transactionId != id
    decreases |store|
  {
    if store != [] && store[0].rec.transactionId != id {
      GetTransactionByIdSpec(store[1..], id);
      assert forall d :: d in store ==> d == store[0] || d in store[1..];
      if GetTransactionById(store, id).Some? {
        var k :| 0 <= k < |store[1..]| && store[1..][k].rec == GetTransactionById(store, id).value &&
          store[1..][k].rec.transactionId == id &&
          forall j :: 0 <= j < k ==> store[1..][j].rec.transactionId != id;
        assert forall j :: 1 <= j < k + 1 ==> store[j] == store[1..][j - 1];
      }
    } else if store != [] {
      assert store[0] in store;
    }
  }

  /** The summary over `{quantity 2, total 100, final 90}` and
      `{quantity 3, total 50, final 50}`: 5 units, 150 gross, 140 net and a
      discount of 10; over no documents there is no group and every total is 0. */
  lemma SummaryExample(a: Doc, b: Doc)
    requires a.rec.quantity == 2 && a.rec.totalAmount == 100.0 && a.rec.finalAmount == 90.0
    requires b.rec.quantity == 3 && b.rec.totalAmount == 50.0 && b.rec.finalAmount == 50.0
    ensures GroupTotals([a, b]) == Some(Totals(5, 150.0, 140.0))
    ensures SumTotalAmount([a, b]) - SumFinalAmount([a, b]) == 10.0
    ensures GroupTotals([]).GetOr(Totals(0, 0.0, 0.0)) == Totals(0, 0.0, 0.0)
  {
    assert [a, b][..1] == [a];
    assert [a][..0] == [];
    assert SumQuantity([a]) == 2 && SumTotalAmount([a]) == 100.0 && SumFinalAmount([a]) == 90.0;
  }
}
