/** The pager under the table: the "Showing X to Y of N" range and the list
    of page buttons, with `...` where pages are skipped. */
module PaginationView {
  import opened Seqs

  // ---------------------------------------------------------------------
  // The shown range

  /** `startItem`: 0 when there are no rows, else the 1-based position of
      the page's first row. */
  function StartItem(currentPage: int, pageSize: int, totalItems: int): int {
    if totalItems == 0 then 0 else (currentPage - 1) * pageSize + 1
  }

  /** `endItem = Math.min(currentPage * pageSize, totalItems)`. */
  function EndItem(currentPage: int, pageSize: int, totalItems: int): int {
    Min(currentPage * pageSize, totalItems)
  }

  lemma PageOffsets(currentPage: int, pageSize: int)
    ensures currentPage * pageSize == (currentPage - 1) * pageSize + pageSize
  {
  }

  /** On an existing page, positions `startItem..endItem` are exactly the
      rows of that page. */
  lemma ShownRangeIsPage<T>(rows: seq<T>, currentPage: int, pageSize: int)
    requires currentPage >= 1 && pageSize >= 1
    requires 0 <= (currentPage - 1) * pageSize < |rows|
    ensures 1 <= StartItem(currentPage, pageSize, |rows|) <= EndItem(currentPage, pageSize, |rows|) <= |rows|
    ensures rows[StartItem(currentPage, pageSize, |rows|) - 1..EndItem(currentPage, pageSize, |rows|)] ==
      Window(rows, (currentPage - 1) * pageSize, pageSize)
  {
    PageOffsets(currentPage, pageSize);
  }

  // ---------------------------------------------------------------------
  // The page buttons

  /** A page button, or the `'...'` marker. */
  datatype PageEntry = Num(n: int) | Gap

  /** The buttons `a..b`, none when `b < a`. */
  function Range(a: int, b: int): (r: seq<PageEntry>)
    ensures |r| == if b < a then 0 else b - a + 1
    decreases b - a
  {
    if b < a then [] else Range(a, b - 1) + [Num(b)]
  }

  /** Entry `i` of `a..b` is page `a + i`. */
  lemma {:induction false} RangeAt(a: int, b: int)
    ensures forall i :: 0 <= i < |Range(a, b)| ==> Range(a, b)[i] == Num(a + i)
    decreases b - a
  {
    if b >= a {
      RangeAt(a, b - 1);
    }
  }

  /** At most this many page buttons before the list is shortened. */
  const MaxVisible: int := 5

  /** The first page of the middle run. */
  function MiddleStart(currentPage: int, totalPages: int): int {
    if currentPage >= totalPages - 1 then totalPages - 3
    else if currentPage - 1 > 2 then currentPage - 1 else 2
  }

  /** The last page of the middle run. */
  function MiddleEnd(currentPage: int, totalPages: int): int {
    if currentPage <= 2 then 4
    else if currentPage + 1 < totalPages - 1 then currentPage + 1 else totalPages - 1
  }

  /** What `getPageNumbers()` returns: every page when there are at most
      five; otherwise page 1, the middle run with `...` before it when it
      does not start at 2 and after it when it does not end at the
      second-to-last page, and the last page. */
  function PageNumbers(currentPage: int, totalPages: int): seq<PageEntry> {
    if totalPages <= MaxVisible then Range(1, totalPages)
    else
      var start := MiddleStart(currentPage, totalPages);
      var end := MiddleEnd(currentPage, totalPages);
      [Num(1)] + (if start > 2 then [Gap] else []) + Range(start, end) +
      (if end < totalPages - 1 then [Gap] else []) + [Num(totalPages)]
  }

  /** The `for (let i = a; i <= b; i++) pages.push(i)` loops. */
  method PushRange(pages: seq<PageEntry>, a: int, b: int) returns (r: seq<PageEntry>)
    ensures r == pages + Range(a, b)
  {
    r := pages;
    var i := a;
    while i <= b
      invariant a <= i <= (if a <= b then b + 1 else a)
      invariant r == pages + Range(a, i - 1)
      decreases b - i
    {
      r := r + [Num(i)];
      i := i + 1;
    }
  }

  /** `getPageNumbers()` as the component runs it: pushes onto a list. */
  method GetPageNumbers(currentPage: int, totalPages: int) returns (pages: seq<PageEntry>)
    ensures pages == PageNumbers(currentPage, totalPages)
  {
    pages := [];
    if totalPages <= MaxVisible {
      pages := PushRange(pages, 1, totalPages);
    } else {
      pages := pages + [Num(1)];
      var start := if currentPage - 1 > 2 then currentPage - 1 else 2;
      var end := if totalPages - 1 < currentPage + 1 then totalPages - 1 else currentPage + 1;
      if currentPage <= 2 {
        end := 4;
      }
      if currentPage >= totalPages - 1 {
        start := totalPages - 3;
      }
      assert start == MiddleStart(currentPage, totalPages) && end == MiddleEnd(currentPage, totalPages);
      if start > 2 {
        pages := pages + [Gap];
      }
      pages := PushRange(pages, start, end);
      if end < totalPages - 1 {
        pages := pages + [Gap];
      }
      pages := pages + [Num(totalPages)];
    }
  }

  // ---------------------------------------------------------------------
  // What the buttons promise

  /** The page numbers shown, in order. */
  function Numbers(pages: seq<PageEntry>): (r: seq<int>)
    ensures |r| <= |pages|
  {
    if pages == [] then []
    else (if pages[0].Num? then [pages[0].n] else []) + Numbers(pages[1..])
  }

  /** Neighbouring numbers are consecutive pages, a `...` stands between two
      numbers that skip at least one page, and the list neither starts nor
      ends with `...`. */
  predicate WellSpaced(pages: seq<PageEntry>) {
    (|pages| > 0 ==> pages[0].Num? && pages[|pages| - 1].Num?) &&
    (forall i :: 0 <= i < |pages| - 1 && pages[i].Num? && pages[i + 1].Num? ==>
      pages[i + 1].n == pages[i].n + 1) &&
    (forall i :: 0 < i < |pages| - 1 && pages[i].Gap? ==>
      pages[i - 1].Num? && pages[i + 1].Num? && pages[i + 1].n > pages[i - 1].n + 1)
  }

  /** With at most five pages, every page is shown, in order. */
  lemma FewPagesAllShown(currentPage: int, totalPages: int)
    requires totalPages <= MaxVisible
    ensures forall i :: 0 <= i < |PageNumbers(currentPage, totalPages)| ==>
      PageNumbers(currentPage, totalPages)[i] == Num(i + 1)
    ensures |PageNumbers(currentPage, totalPages)| == if totalPages < 0 then 0 else totalPages
  {
    RangeAt(1, totalPages);
  }

  /** With more than five pages, the list takes one of three shapes: near
      the start, near the end, or centred on the current page. */
  lemma ManyPagesShapes(c: int, t: int)
    requires t > MaxVisible
    ensures c <= 2 ==> PageNumbers(c, t) == [Num(1), Num(2), Num(3), Num(4), Gap, Num(t)]
    ensures c >= t - 1 ==> PageNumbers(c, t) == [Num(1), Gap, Num(t - 3), Num(t - 2), Num(t - 1), Num(t)]
    ensures 2 < c < t - 1 ==>
      PageNumbers(c, t) ==
        [Num(1)] + (if c > 3 then [Gap] else []) + [Num(c - 1), Num(c), Num(c + 1)] +
        (if c < t - 2 then [Gap] else []) + [Num(t)]
  {
    if c <= 2 {
      RangeOfThree(2);
    } else if c >= t - 1 {
      RangeOfThree(t - 3);
    } else {
      RangeOfThree(c - 1);
    }
  }

  lemma RangeOfThree(a: int)
    ensures Range(a, a + 2) == [Num(a), Num(a + 1), Num(a + 2)]
  {
    assert Range(a, a) == [Num(a)];
    assert Range(a, a + 1) == [Num(a), Num(a + 1)];
  }

  /** Page 1, a run of three pages from `a`, page `t`, with `...` around
      the run where it does not touch them. */
  lemma RunWellSpaced(a: int, t: int)
    requires 2 <= a && a + 2 <= t - 1
    ensures WellSpaced([Num(1)] + (if a > 2 then [Gap] else []) + [Num(a), Num(a + 1), Num(a + 2)] +
      (if a + 2 < t - 1 then [Gap] else []) + [Num(t)])
  {
    var p := [Num(1)] + (if a > 2 then [Gap] else []) + [Num(a), Num(a + 1), Num(a + 2)] +
      (if a + 2 < t - 1 then [Gap] else []) + [Num(t)];
    if a > 2 && a + 2 < t - 1 {
      assert p == [Num(1), Gap, Num(a), Num(a + 1), Num(a + 2), Gap, Num(t)];
    } else if a > 2 {
      assert p == [Num(1), Gap, Num(a), Num(a + 1), Num(a + 2), Num(t)];
    } else if a + 2 < t - 1 {
      assert p == [Num(1), Num(a), Num(a + 1), Num(a + 2), Gap, Num(t)];
    } else {
      assert p == [Num(1), Num(a), Num(a + 1), Num(a + 2), Num(t)];
    }
  }

  /** With more than five pages: at most seven entries, first page 1 and
      last page `totalPages`, and the current page shown when it exists. */
  lemma ManyPagesSpec(c: int, t: int)
    requires t > MaxVisible
    ensures |PageNumbers(c, t)| <= 7
    ensures PageNumbers(c, t)[0] == Num(1) && PageNumbers(c, t)[|PageNumbers(c, t)| - 1] == Num(t)
    ensures 1 <= c <= t ==> Num(c) in PageNumbers(c, t)
  {
    var a := MiddleStart(c, t);
    assert MiddleEnd(c, t) == a + 2;
    RangeOfThree(a);
    var run := [Num(a), Num(a + 1), Num(a + 2)];
    var head := [Num(1)] + (if a > 2 then [Gap] else []);
    var tail := (if a + 2 < t - 1 then [Gap] else []) + [Num(t)];
    assert PageNumbers(c, t) == head + run + tail;
    if 1 < c < t {
      assert Num(c) in run;
    }
  }

  /** After the first entry of a well-spaced list comes either the next
      page, or `...` and then a page at least two further on; either way
      what follows is well spaced again. */
  lemma WellSpacedTail(pages: seq<PageEntry>) returns (next: seq<PageEntry>)
    requires WellSpaced(pages) && |pages| > 1
    ensures WellSpaced(next) && |next| > 0 && |next| < |pages|
    ensures next[0].n > pages[0].n
    ensures Numbers(pages) == [pages[0].n] + Numbers(next)
  {
    if pages[1].Num? {
      next := pages[1..];
    } else {
      next := pages[2..];
      assert WellSpaced(next) by {
        forall i | 0 < i < |next| - 1 && next[i].Gap?
          ensures next[i - 1].Num? && next[i + 1].Num? && next[i + 1].n > next[i - 1].n + 1
        {
          assert next[i] == pages[i + 2];
        }
      }
      assert Numbers(pages[1..]) == Numbers(next);
    }
  }

  /** In a well-spaced list the page numbers strictly increase from the
      first entry's. */
  lemma {:induction false} WellSpacedIncreasing(pages: seq<PageEntry>)
    requires WellSpaced(pages)
    ensures forall i, j :: 0 <= i < j < |Numbers(pages)| ==> Numbers(pages)[i] < Numbers(pages)[j]
    ensures |pages| > 0 ==> |Numbers(pages)| > 0 && Numbers(pages)[0] == pages[0].n
    ensures |pages| > 0 ==> forall i :: 0 <= i < |Numbers(pages)| ==> Numbers(pages)[i] >= pages[0].n
    decreases |pages|
  {
    if |pages| == 1 {
      assert Numbers(pages) == [pages[0].n];
    } else if |pages| > 1 {
      var next := WellSpacedTail(pages);
      WellSpacedIncreasing(next);
    }
  }

  /** The page list is well spaced whatever the page and the count:
      neighbours are consecutive pages and every `...` hides at least one. */
  lemma PageNumbersWellSpaced(c: int, t: int)
    ensures WellSpaced(PageNumbers(c, t))
  {
    if t > MaxVisible {
      var a := MiddleStart(c, t);
      assert MiddleEnd(c, t) == a + 2;
      RangeOfThree(a);
      RunWellSpaced(a, t);
    } else {
      RangeAt(1, t);
    }
  }

  /** The pages shown strictly increase and all exist. */
  lemma PageNumbersIncreasing(c: int, t: int)
    ensures forall i, j :: 0 <= i < j < |Numbers(PageNumbers(c, t))| ==>
      Numbers(PageNumbers(c, t))[i] < Numbers(PageNumbers(c, t))[j]
    ensures forall e :: e in PageNumbers(c, t) && e.Num? ==> 1 <= e.n <= t
  {
    PageNumbersWellSpaced(c, t);
    WellSpacedIncreasing(PageNumbers(c, t));
    if t > MaxVisible {
      ManyPagesShapes(c, t);
    } else {
      RangeAt(1, t);
    }
  }
}
