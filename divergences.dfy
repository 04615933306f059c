/** Where the in-memory path (`FilterUtils`) and the store path (`SalesService`)
    agree and where they part ways, stated over the same records. */
module Divergences {
  import opened Wrappers
  import opened Text
  import opened Numbers
  import opened Seqs
  import opened Records
  import FU = FilterUtils
  import SS = SalesService

  // =====================================================================
  // Search

  lemma LowerCharTwice(c: char)
    ensures LowerChar(LowerChar(c)) == LowerChar(c)
  {
  }

  lemma WsIsNotWordChar(c: char)
    ensures IsWs(c) ==> !IsWordChar(c)
  {
  }

  /** A query word that begins a white-space separated word of the lower-cased
      field, and starts with a word character, also follows a `\b` in the field:
      what the in-memory search finds for that word, the store finds too. */
  lemma WordStartIsBoundary(f: string, w: string)
    requires w != "" && IsWordChar(w[0])
    requires PrefixAtWordStart(Lower(f), w)
    ensures SS.BoundaryPrefix(f, w)
  {
    var lf := Lower(f);
    var i :| 0 <= i <= |lf| && (i == 0 || IsWs(lf[i - 1])) && StartsWith(lf[i..], w);
    assert i + |w| <= |f| && lf[i..][..|w|] == w;
    assert forall k :: 0 <= k < |w| ==> w[k] == LowerChar(f[i + k]) by {
      forall k | 0 <= k < |w| ensures w[k] == LowerChar(f[i + k]) {
        assert w[k] == lf[i..][..|w|][k] == lf[i + k];
      }
    }
    LowerMatch(f[i..i + |w|], w);
    assert IsWordChar(f[i]) by {
      assert LowerChar(f[i]) == w[0];
    }
    if i > 0 {
      assert IsWs(LowerChar(f[i - 1]));
      WsIsNotWordChar(f[i - 1]);
    }
    assert SS.AtBoundary(f, i);
  }

  /** A piece whose lower-cased characters are the word's reads as the word
      under case folding. */
  lemma LowerMatch(piece: string, w: string)
    requires |piece| == |w|
    requires forall k :: 0 <= k < |w| ==> w[k] == LowerChar(piece[k])
    ensures Lower(piece) == Lower(w)
  {
    forall k | 0 <= k < |w| ensures Lower(piece)[k] == Lower(w)[k] {
      LowerCharTwice(piece[k]);
    }
  }

  /** When every query word starts with a word character, every record the
      in-memory search keeps is one the store's search query matches. The
      converse fails (`HyphenSplitsWords`, `WordsInTwoFieldsInMemory`). */
  lemma InMemorySearchWithinStore(data: seq<Transaction>, term: string, t: Transaction)
    requires forall w :: w in SplitWs(FU.SearchQuery(term)) && w != "" ==> IsWordChar(w[0])
    ensures t in FU.ApplySearch(data, term) ==> SS.Matches(SS.BuildSearchQuery(term), t)
  {
    SS.SearchQueryMeaning(term, t);
    if t in FU.ApplySearch(data, term) && Trim(term) != "" {
      var q := FU.SearchQuery(term);
      FU.QueryWords(term);
      WhereMembers(data, FU.Matcher(q), t);
      var f :| f in SearchFields(t) && FU.FieldMatches(f, q);
      FU.FieldMatchesWords(f, q);
      forall w | w in SplitWs(q) ensures SS.WordFound(t, w) {
        WordStartIsBoundary(f, w);
      }
    }
  }

  /** Without white space, a word start is only the start of the string. */
  lemma NoWsWordStart(s: string, w: string)
    requires NoWs(s)
    ensures PrefixAtWordStart(s, w) <==> StartsWith(s, w)
  {
    if PrefixAtWordStart(s, w) {
      var i :| 0 <= i <= |s| && (i == 0 || IsWs(s[i - 1])) && StartsWith(s[i..], w);
      assert i == 0 && s[i..] == s;
    }
    if StartsWith(s, w) {
      assert s[0..] == s;
    }
  }

  /** A non-blank word with no white space: the search query is the word and
      its one word is the word itself. */
  lemma OneWordTerm(term: string)
    requires term != "" && NoWs(term) && Lower(term) == term
    ensures Trim(term) == term && FU.SearchQuery(term) == term && SplitWs(term) == [term]
  {
    assert TrimStart(term) == term;
    assert TrimEnd(term) == term;
    SplitWsSingle(term);
  }

  /** Two lower-case words separated by one space: the search query is the
      term itself and splits into the two words. */
  lemma TwoWordTerm(u: string, v: string)
    requires u != "" && v != "" && NoWs(u) && NoWs(v) && Lower(u) == u && Lower(v) == v
    ensures var term := u + " " + v;
      Trim(term) == term && FU.SearchQuery(term) == term && SplitWs(term) == [u, v] && !NoWs(term)
  {
    var term := u + " " + v;
    assert term[|u|] == ' ';
    assert term[0] == u[0] && term[|term| - 1] == v[|v| - 1];
    TrimUntouched(term);
    assert Lower(term) == term by {
      forall i | 0 <= i < |term| ensures Lower(term)[i] == term[i] {
        if i < |u| {
          assert term[i] == u[i] && Lower(u)[i] == LowerChar(u[i]);
        } else if i > |u| {
          assert term[i] == v[i - |u| - 1] && Lower(v)[i - |u| - 1] == LowerChar(v[i - |u| - 1]);
        }
      }
    }
    SplitWsTwoWords(u, v);
  }

  lemma LowerNoWs(s: string)
    requires NoWs(s)
    ensures NoWs(Lower(s))
  {
  }

  /** No pattern matches inside an empty field. */
  lemma EmptyFieldNoBoundaryPrefix(w: string)
    requires w != ""
    ensures !SS.BoundaryPrefix("", w)
  {
  }

  /** A single-word term on a record whose only non-empty searchable field is
      `f`: the in-memory verdict is the verdict on `f`. */
  lemma OneFieldInMemory(t: Transaction, f: string, w: string)
    requires w != "" && NoWs(w) && Lower(w) == w
    requires forall g :: g in SearchFields(t) ==> g == f || g == ""
    requires f in SearchFields(t) && f != ""
    ensures t in FU.ApplySearch([t], w) <==> PrefixAtWordStart(Lower(f), w)
  {
    OneWordTerm(w);
    FU.SearchSingleWord([t], w, t);
    if exists g :: g in SearchFields(t) && g != "" && PrefixAtWordStart(Lower(g), FU.SearchQuery(w)) {
      var g :| g in SearchFields(t) && g != "" && PrefixAtWordStart(Lower(g), FU.SearchQuery(w));
      assert g == f;
    }
  }

  /** The same for the store. */
  lemma OneFieldStore(t: Transaction, f: string, w: string)
    requires w != "" && NoWs(w) && Lower(w) == w
    requires forall g :: g in SearchFields(t) ==> g == f || g == ""
    requires f in SearchFields(t) && f != ""
    ensures SS.Matches(SS.BuildSearchQuery(w), t) <==> SS.BoundaryPrefix(f, w)
  {
    OneWordTerm(w);
    SS.SearchQueryMeaning(w, t);
    assert w in SplitWs(w);
    EmptyFieldNoBoundaryPrefix(w);
    if SS.WordFound(t, w) {
      var g :| g in SearchFields(t) && SS.BoundaryPrefix(g, w);
      assert g == f;
    }
  }

  /** The only non-empty searchable field is the customer name; the customer
      id is `id`. */
  predicate NameAndId(t: Transaction, name: string, id: string) {
    t.customerName == name && t.customerId == id &&
    t.phoneNumber == "" && t.transactionId == "" && t.employeeName == "" && t.productId == ""
  }

  lemma OnlyName(t: Transaction)
    requires NameAndId(t, t.customerName, "") && t.customerName != ""
    ensures t.customerName in SearchFields(t)
    ensures forall g :: g in SearchFields(t) ==> g == t.customerName || g == ""
  {
  }

  lemma HyphenStrings(name: string, w: string)
    requires name == "Neha-Yadav" && w == "yadav"
    ensures w != "" && NoWs(w) && Lower(w) == w
    ensures SS.BoundaryPrefix(name, w)
    ensures !PrefixAtWordStart(Lower(name), w)
  {
    PlainWord(w);
    HyphenBoundary(name, w);
    HyphenNoWordStart(name, w);
  }

  lemma PlainWord(w: string)
    requires w == "yadav"
    ensures w != "" && NoWs(w) && Lower(w) == w
  {
    assert Lower(w)[0] == 'y' && Lower(w)[1] == 'a' && Lower(w)[2] == 'd' && Lower(w)[3] == 'a' && Lower(w)[4] == 'v';
  }

  lemma HyphenBoundary(name: string, w: string)
    requires name == "Neha-Yadav" && w == "yadav"
    ensures SS.BoundaryPrefix(name, w)
  {
    assert name[5..10] == "Yadav";
    LowerMatch(name[5..10], w);
    assert SS.AtBoundary(name, 5);
  }

  lemma HyphenNoWordStart(name: string, w: string)
    requires name == "Neha-Yadav" && w == "yadav"
    ensures !PrefixAtWordStart(Lower(name), w)
  {
    var lf := Lower(name);
    LowerNoWs(name);
    NoWsWordStart(lf, w);
    assert lf[0] == 'n';
  }

  /** `"yadav"` against the name `"Neha-Yadav"`: the store's `\b` stands
      after the hyphen, so the store keeps the record; the in-memory search
      splits on white space only, finds the one word `"neha-yadav"`, and drops it. */
  lemma HyphenSplitsWords(t: Transaction, w: string)
    requires NameAndId(t, "Neha-Yadav", "") && w == "yadav"
    ensures SS.Matches(SS.BuildSearchQuery(w), t)
    ensures t !in FU.ApplySearch([t], w)
  {
    HyphenStrings(t.customerName, w);
    OnlyName(t);
    OneFieldInMemory(t, t.customerName, w);
    OneFieldStore(t, t.customerName, w);
  }

  lemma NameStartStrings(name: string, w: string)
    requires name == "Neha Yadav" && w == "neha"
    ensures w != "" && NoWs(w) && Lower(w) == w
    ensures PrefixAtWordStart(Lower(name), w) && SS.BoundaryPrefix(name, w)
  {
    assert Lower(name)[0..][..4] == w;
    assert SS.AtBoundary(name, 0);
    assert Lower(name[0..4]) == Lower(w);
  }

  lemma InfixStrings(name: string, w: string)
    requires name == "Sneha" && w == "neha"
    ensures !PrefixAtWordStart(Lower(name), w) && !SS.BoundaryPrefix(name, w)
  {
    var lf := Lower(name);
    LowerNoWs(name);
    NoWsWordStart(lf, w);
    assert lf[0] == 's';
    forall i | 0 <= i && i + 4 <= |name| && SS.AtBoundary(name, i) ensures Lower(name[i..i + 4]) != Lower(w) {
      assert i == 0;
      assert Lower(name[0..4])[0] == 's';
    }
  }

  /** `"neha"` keeps `"Neha Yadav"` and drops `"Sneha"` on both paths: the
      word must begin a word of the name. */
  lemma WordPrefixNotInfix(kept: Transaction, dropped: Transaction, w: string)
    requires NameAndId(kept, "Neha Yadav", "") && NameAndId(dropped, "Sneha", "") && w == "neha"
    ensures kept in FU.ApplySearch([kept], w) && SS.Matches(SS.BuildSearchQuery(w), kept)
    ensures dropped !in FU.ApplySearch([dropped], w) && !SS.Matches(SS.BuildSearchQuery(w), dropped)
  {
    NameStartStrings(kept.customerName, w);
    InfixStrings(dropped.customerName, w);
    OnlyName(kept);
    OnlyName(dropped);
    OneFieldInMemory(kept, kept.customerName, w);
    OneFieldStore(kept, kept.customerName, w);
    OneFieldInMemory(dropped, dropped.customerName, w);
    OneFieldStore(dropped, dropped.customerName, w);
  }

  lemma IdStrings(id: string, w: string, other: string)
    requires id == "CUST1" && w == "cust1" && other == "neha"
    ensures w != "" && NoWs(w) && Lower(w) == w
    ensures SS.BoundaryPrefix(id, w) && !PrefixAtWordStart(Lower(id), other)
  {
    assert SS.AtBoundary(id, 0);
    assert Lower(id[0..5]) == Lower(w);
    var lf := Lower(id);
    LowerNoWs(id);
    NoWsWordStart(lf, other);
    assert lf[0] == 'c';
  }

  lemma NotAfterSpace(name: string, w: string)
    requires name == "Neha Yadav" && w == "cust1"
    ensures !PrefixAtWordStart(Lower(name), w)
  {
    var ln := Lower(name);
    assert forall j :: 0 <= j < |ln| ==> ln[j] != 'c';
    forall i | 0 <= i <= |ln| && (i == 0 || IsWs(ln[i - 1])) ensures !StartsWith(ln[i..], w) {
      if i < |ln| {
        assert ln[i..][0] != w[0];
      }
    }
  }

  /** `"neha cust1"` against a record named `"Neha Yadav"` with customer id
      `"CUST1"`: the store finds each word in its own field and keeps the
      record. */
  lemma WordsInTwoFieldsStore(t: Transaction, u: string, v: string)
    requires NameAndId(t, "Neha Yadav", "CUST1") && u == "neha" && v == "cust1"
    ensures SS.Matches(SS.BuildSearchQuery(u + " " + v), t)
  {
    NameStartStrings(t.customerName, u);
    IdStrings(t.customerId, v, u);
    TwoWordTerm(u, v);
    FoundAcrossFields(t, u + " " + v, u, v);
    SS.SearchQueryMeaning(u + " " + v, t);
  }

  /** A two-word term whose first word the name has at a boundary and whose
      second word the id has: every word is found, each in its own field. */
  lemma FoundAcrossFields(t: Transaction, term: string, u: string, v: string)
    requires SplitWs(FU.SearchQuery(term)) == [u, v]
    requires SS.BoundaryPrefix(t.customerName, u) && SS.BoundaryPrefix(t.customerId, v)
    ensures SS.SearchHolds(term, t)
  {
    assert t.customerName in SearchFields(t) && t.customerId in SearchFields(t);
    forall w | w in SplitWs(FU.SearchQuery(term)) ensures SS.WordFound(t, w) {
      if w == u {
        assert SS.BoundaryPrefix(t.customerName, w);
      } else {
        assert SS.BoundaryPrefix(t.customerId, w);
      }
    }
  }

  /** The same record and term in memory: both words must begin words of one
      field, no field has both, and the record is dropped. */
  lemma WordsInTwoFieldsInMemory(t: Transaction, u: string, v: string)
    requires NameAndId(t, "Neha Yadav", "CUST1") && u == "neha" && v == "cust1"
    ensures t !in FU.ApplySearch([t], u + " " + v)
  {
    NameStartStrings(t.customerName, u);
    IdStrings(t.customerId, v, u);
    NotAfterSpace(t.customerName, v);
    TwoWordTerm(u, v);
    SplitAcrossFields([t], t, u + " " + v, u, v);
  }

  /** A two-word term whose second word the name lacks and whose first word
      the id lacks: no single field has both, so the record is dropped in
      memory. */
  lemma SplitAcrossFields(data: seq<Transaction>, t: Transaction, term: string, u: string, v: string)
    requires NameAndId(t, t.customerName, t.customerId)
    requires Trim(term) != "" && !NoWs(FU.SearchQuery(term))
    requires SplitWs(FU.SearchQuery(term)) == [u, v]
    requires !PrefixAtWordStart(Lower(t.customerName), v) && !PrefixAtWordStart(Lower(t.customerId), u)
    ensures t !in FU.ApplySearch(data, term)
  {
    FU.SearchMultiWord(data, term, t);
    assert u in SplitWs(FU.SearchQuery(term)) && v in SplitWs(FU.SearchQuery(term));
    forall f | f in SearchFields(t) && f != ""
      ensures !(forall w :: w in SplitWs(FU.SearchQuery(term)) ==> PrefixAtWordStart(Lower(f), w))
    {
      NameOrId(t, f);
      if f == t.customerName {
        assert !PrefixAtWordStart(Lower(f), v);
      } else {
        assert !PrefixAtWordStart(Lower(f), u);
      }
    }
  }

  /** With every other searchable field blank, a non-blank field is the name or the id. */
  lemma NameOrId(t: Transaction, f: string)
    requires NameAndId(t, t.customerName, t.customerId) && f in SearchFields(t) && f != ""
    ensures f == t.customerName || f == t.customerId
  {
  }

  // =====================================================================
  // Sorting

  /** Two records with valid dates, the earlier one first: `date` with
      `'asc'` puts the later record first in memory and keeps the earlier
      first in the store. */
  lemma DateAscendingOpposite(a: Transaction, b: Transaction)
    requires ParseDate(a.date).Some? && ParseDate(b.date).Some?
    requires ParseDate(a.date).value < ParseDate(b.date).value
    requires LexCmp(a.date, b.date) < 0
    ensures FU.ApplySorting([a, b], "date", "asc") == [b, a]
    ensures SS.StoreOrder([SS.Doc(0, a), SS.Doc(1, b)], SS.SortSpec("date", "asc")) == [SS.Doc(0, a), SS.Doc(1, b)]
  {
    assert Lower("asc") == "asc";
    assert FU.Direction("asc") == 1;
    var cmp := FU.Comparator("date", 1);
    assert [a, b][..1] == [a];
    assert SortBy([a], cmp) == [a];
    assert cmp(a, b) > 0;
    var ds := [SS.Doc(0, a), SS.Doc(1, b)];
    var scmp := SS.StoreComparator(SS.SortEntry(SS.ByDate, 1));
    assert SS.SortSpec("date", "asc") == Some(SS.SortEntry(SS.ByDate, 1));
    assert ds[..1] == [SS.Doc(0, a)];
    assert SortBy([SS.Doc(0, a)], scmp) == [SS.Doc(0, a)];
    assert scmp(SS.Doc(0, a), SS.Doc(1, b)) < 0;
    assert Insert(SS.Doc(1, b), [SS.Doc(0, a)], scmp) == [SS.Doc(0, a)] + Insert(SS.Doc(1, b), [], scmp);
  }

  // =====================================================================
  // Pagination

  /** A page past the last: the in-memory path moves it back to the last page,
      which is not empty; the store path returns no rows. */
  lemma PageOutOfRange<T>(rows: seq<T>, page: int, size: int)
    requires size >= 1 && |rows| >= 1 && page > FU.CeilDiv(|rows|, size)
    ensures FU.ApplyPagination(rows, page, size).pagination.currentPage == FU.CeilDiv(|rows|, size)
    ensures FU.ApplyPagination(rows, page, size).data != []
    ensures SS.PageRows(rows, page, size) == []
  {
    var tp := FU.CeilDiv(|rows|, size);
    FU.ApplyPaginationSpec(rows, page, size);
    SS.PagePastEnd(rows, page, size);
    assert (tp - 1) * size < |rows|;
    assert Window(rows, (tp - 1) * size, size) != [] by {
      assert Min((tp - 1) * size, |rows|) < Min((tp - 1) * size + size, |rows|);
    }
  }

  // =====================================================================
  // Filters

  /** An age bound `parseInt` cannot read: the in-memory path ignores it, the
      store compares with `NaN` and keeps nothing. */
  lemma UnreadableAgeBound(f: FU.Filters, t: Transaction)
    requires f.ageMin.Some? && f.ageMin.value != "" && ParseIntAuto(f.ageMin.value).None?
    ensures FU.Keeps(f, t) <==> FU.Keeps(f.(ageMin := None), t)
    ensures !SS.StoreKeeps(f, t)
  {
  }

  /** A `dateTo` that names no date: the in-memory path ignores it, the store
      still compares the record's date string with it. */
  lemma UnreadableDateTo(f: FU.Filters, t: Transaction)
    requires f.dateTo.Some? && f.dateTo.value != "" && ParseDate(f.dateTo.value).None?
    ensures FU.Keeps(f, t) <==> FU.Keeps(f.(dateTo := None), t)
    ensures SS.StoreKeeps(f, t) ==> LexCmp(t.date, f.dateTo.value) <= 0
  {
  }

  /** `"zzz"` names no date: the in-memory path ignores it and keeps a record
      dated `"zzzz"`, while the store drops the record, whose date string
      comes after `"zzz"`. */
  lemma UnreadableDateToWitness(f: FU.Filters, t: Transaction, d: string)
    requires f == FU.Filters([], [], None, None, [], [], [], None, Some(d)) && d == "zzz" && t.date == "zzzz"
    ensures FU.Keeps(f, t) && !SS.StoreKeeps(f, t)
  {
    assert !IsDateText(d);
    assert LexCmp(t.date, d) > 0;
  }

  // =====================================================================
  // Filter options

  /** The values of one field over the documents are those over the records. */
  lemma ColumnMembers(ds: seq<SS.Doc>, field: Transaction -> string, x: string)
    ensures x in SS.Column(ds, field) <==> exists t :: t in SS.Strip(ds) && field(t) == x
  {
    var c := SS.Column(ds, field);
    var r := SS.Strip(ds);
    if x in c {
      var i :| 0 <= i < |c| && c[i] == x;
      assert r[i] in r;
    }
    if exists t :: t in r && field(t) == x {
      var t :| t in r && field(t) == x;
      var i :| 0 <= i < |r| && r[i] == t;
      assert c[i] == x;
    }
  }

  /** On the same records, the store's listing of a field and the in-memory
      option list are the same sequence. */
  lemma OptionListsAgree(ds: seq<SS.Doc>, field: Transaction -> string)
    ensures SS.Listing(SS.Column(ds, field)) == SortedDistinct(FU.Truthy(SS.Strip(ds), field))
  {
    var a := SS.Listing(SS.Column(ds, field));
    var b := SortedDistinct(FU.Truthy(SS.Strip(ds), field));
    SS.ListingSpec(SS.Column(ds, field));
    SortedDistinctSpec(FU.Truthy(SS.Strip(ds), field));
    forall x ensures x in a <==> x in b {
      ColumnMembers(ds, field, x);
      FU.TruthyMembers(SS.Strip(ds), field, x);
    }
    StrictlySortedUnique(a, b);
  }

  /** A record carrying the empty tag: the in-memory tag list keeps `""`,
      the store's listing drops it. */
  lemma EmptyTagDiffers(t: Transaction)
    requires "" in t.tags
    ensures "" in SortedDistinct(FU.AllTags([t]))
    ensures "" !in SS.Listing(SS.TagColumn([SS.Doc(0, t)]))
  {
    FU.AllTagsMembers([t], "");
    assert t in [t];
    SortedDistinctSpec(FU.AllTags([t]));
    SS.ListingSpec(SS.TagColumn([SS.Doc(0, t)]));
  }

  /** Ages 0 and `b.age > 0`: the in-memory range skips the 0 and gives
      `b.age..b.age`; the store takes the minimum 0, which `|| 0` leaves at 0. */
  lemma ZeroAgeDiffers(a: Transaction, b: Transaction)
    requires a.age == 0 && b.age > 0
    ensures FU.MinPositiveAge([a, b]) == Some(b.age)
    ensures FU.MaxPositiveAge([a, b]) == Some(b.age)
    ensures SS.GetFilterOptions([SS.Doc(0, a), SS.Doc(1, b)]).ageMin == 0
    ensures SS.GetFilterOptions([SS.Doc(0, a), SS.Doc(1, b)]).ageMax == b.age
  {
    var ts := [a, b];
    var t0 := [a];
    assert ts[..|ts| - 1] == t0 && t0[..|t0| - 1] == [];
    assert FU.MinPositiveAge(t0) == None;
    assert FU.MaxPositiveAge(t0) == None;
    var ds := [SS.Doc(0, a), SS.Doc(1, b)];
    var d0 := [SS.Doc(0, a)];
    assert ds[..|ds| - 1] == d0 && d0[..|d0| - 1] == [];
    assert SS.MinAge(d0) == Some(0);
    assert SS.MaxAge(d0) == Some(0);
    assert SS.MinAge(ds) == Some(0);
    assert SS.MaxAge(ds) == Some(b.age);
  }
}
