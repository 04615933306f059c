/** Sequence operations the query engine is built from: `Array.prototype.filter`,
    the stable `Array.prototype.sort` driven by a three-way comparator, and
    `slice` windows for pagination. */
module Seqs {
  import opened Text

  // ---------------------------------------------------------------------
  // filter

  /** `s.filter(p)`. */
  function Where<T>(s: seq<T>, p: T -> bool): (r: seq<T>)
    ensures |r| <= |s|
    decreases |s|
  {
    if s == [] then [] else (if p(s[0]) then [s[0]] else []) + Where(s[1..], p)
  }

  /** The filter keeps exactly the elements that pass the test. */
  lemma {:induction false} WhereMembers<T>(s: seq<T>, p: T -> bool, x: T)
    ensures x in Where(s, p) <==> x in s && p(x)
    decreases |s|
  {
    if s != [] {
      WhereMembers(s[1..], p, x);
      assert s == [s[0]] + s[1..];
    }
  }

  /** `a` is `b` with some elements left out, the rest kept in order. */
  predicate IsSubsequence<T(==)>(a: seq<T>, b: seq<T>)
    decreases |b|
  {
    |a| == 0 || (|b| > 0 && ((a[0] == b[0] && IsSubsequence(a[1..], b[1..])) || IsSubsequence(a, b[1..])))
  }

  lemma {:induction false} WhereIsSubsequence<T>(s: seq<T>, p: T -> bool)
    ensures IsSubsequence(Where(s, p), s)
    decreases |s|
  {
    if s != [] {
      WhereIsSubsequence(s[1..], p);
      var r := Where(s, p);
      if p(s[0]) {
        assert r[0] == s[0] && r[1..] == Where(s[1..], p);
      } else {
        assert r == Where(s[1..], p);
      }
    }
  }

  /** Filtering twice is filtering once by the conjunction. */
  lemma {:induction false} WhereWhere<T>(s: seq<T>, p: T -> bool, q: T -> bool, pq: T -> bool)
    requires forall x :: pq(x) == (p(x) && q(x))
    ensures Where(Where(s, p), q) == Where(s, pq)
    decreases |s|
  {
    if s != [] {
      WhereWhere(s[1..], p, q, pq);
      if p(s[0]) {
        assert Where(s, p) == [s[0]] + Where(s[1..], p);
        assert Where(s, p)[1..] == Where(s[1..], p);
      } else {
        assert Where(s, p) == Where(s[1..], p);
      }
    }
  }

  /** A filter that keeps everything changes nothing. */
  lemma {:induction false} WhereAll<T>(s: seq<T>, p: T -> bool)
    requires forall x :: p(x)
    ensures Where(s, p) == s
    decreases |s|
  {
    if s != [] {
      WhereAll(s[1..], p);
      assert s == [s[0]] + s[1..];
    }
  }

  /** A filter whose test holds for every element keeps all of them. */
  lemma {:induction false} WhereKeepsAll<T>(s: seq<T>, p: T -> bool)
    requires forall i :: 0 <= i < |s| ==> p(s[i])
    ensures Where(s, p) == s
    decreases |s|
  {
    if s != [] {
      WhereKeepsAll(s[1..], p);
      assert s == [s[0]] + s[1..];
    }
  }

  /** Filtering a list with one more element at the end. */
  lemma {:induction false} WhereSnoc<T>(s: seq<T>, x: T, p: T -> bool)
    ensures Where(s + [x], p) == Where(s, p) + (if p(x) then [x] else [])
    decreases |s|
  {
    if s == [] {
      assert s + [x] == [x];
    } else {
      WhereSnoc(s[1..], x, p);
      assert (s + [x])[1..] == s[1..] + [x];
    }
  }

  /** Filters that agree on every element give the same result. */
  lemma {:induction false} WhereSame<T>(s: seq<T>, p: T -> bool, q: T -> bool)
    requires forall x :: x in s ==> p(x) == q(x)
    ensures Where(s, p) == Where(s, q)
    decreases |s|
  {
    if s != [] {
      assert forall x :: x in s[1..] ==> x in s;
      WhereSame(s[1..], p, q);
    }
  }

  // ---------------------------------------------------------------------
  // Stable sort by a three-way comparator

  /** Inserts `x` before the first element that must come after it, so that
      `x` lands after every element it ties with. */
  function Insert<T>(x: T, s: seq<T>, cmp: (T, T) -> int): (r: seq<T>)
    ensures |r| == |s| + 1
  {
    if s == [] then [x]
    else if cmp(s[0], x) > 0 then [x] + s
    else [s[0]] + Insert(x, s[1..], cmp)
  }

  /** Stable sort: each element in turn is inserted after the ones it ties with. */
  function SortBy<T>(s: seq<T>, cmp: (T, T) -> int): (r: seq<T>)
    ensures |r| == |s|
  {
    if s == [] then [] else Insert(s[|s| - 1], SortBy(s[..|s| - 1], cmp), cmp)
  }

  predicate SortedBy<T>(s: seq<T>, cmp: (T, T) -> int) {
    forall i, j :: 0 <= i < j < |s| ==> cmp(s[i], s[j]) <= 0
  }

  /** `cmp` is a consistent comparator on the elements of `s`: its sign flips
      when the arguments are swapped, and "not after" is transitive. */
  ghost predicate ConsistentOn<T>(cmp: (T, T) -> int, s: seq<T>) {
    && (forall a, b :: a in s && b in s ==> (cmp(a, b) < 0 <==> cmp(b, a) > 0))
    && (forall a, b, c :: a in s && b in s && c in s && cmp(a, b) <= 0 && cmp(b, c) <= 0 ==> cmp(a, c) <= 0)
  }

  lemma {:induction false} InsertPermutes<T>(x: T, s: seq<T>, cmp: (T, T) -> int)
    ensures multiset(Insert(x, s, cmp)) == multiset(s) + multiset{x}
    decreases |s|
  {
    if s != [] && cmp(s[0], x) <= 0 {
      InsertPermutes(x, s[1..], cmp);
      assert s == [s[0]] + s[1..];
    }
  }

  /** The sort only reorders: the result is a permutation of its input. */
  lemma {:induction false} SortByPermutes<T>(s: seq<T>, cmp: (T, T) -> int)
    ensures multiset(SortBy(s, cmp)) == multiset(s)
    decreases |s|
  {
    if s != [] {
      SortByPermutes(s[..|s| - 1], cmp);
      InsertPermutes(s[|s| - 1], SortBy(s[..|s| - 1], cmp), cmp);
      assert s == s[..|s| - 1] + [s[|s| - 1]];
    }
  }

  lemma {:induction false} InsertMembers<T>(x: T, s: seq<T>, cmp: (T, T) -> int, y: T)
    requires y in Insert(x, s, cmp)
    ensures y == x || y in s
    decreases |s|
  {
    if s != [] && cmp(s[0], x) <= 0 {
      if y != s[0] {
        InsertMembers(x, s[1..], cmp, y);
      }
    }
  }

  lemma {:induction false} InsertSorted<T>(x: T, s: seq<T>, cmp: (T, T) -> int, all: seq<T>)
    requires SortedBy(s, cmp) && ConsistentOn(cmp, all)
    requires x in all && forall y :: y in s ==> y in all
    ensures SortedBy(Insert(x, s, cmp), cmp)
    decreases |s|
  {
    if s == [] {
    } else if cmp(s[0], x) > 0 {
      InsertFront(x, s, cmp, all);
    } else {
      assert forall y :: y in s[1..] ==> y in s;
      InsertSorted(x, s[1..], cmp, all);
      var r := Insert(x, s[1..], cmp);
      forall k | 0 <= k < |r| ensures cmp(s[0], r[k]) <= 0 {
        InsertMembers(x, s[1..], cmp, r[k]);
        if r[k] != x {
          var j :| 0 <= j < |s[1..]| && s[1..][j] == r[k];
          assert s[j + 1] == r[k];
        }
      }
      ConsSorted(s[0], r, cmp);
    }
  }

  lemma InsertFront<T>(x: T, s: seq<T>, cmp: (T, T) -> int, all: seq<T>)
    requires SortedBy(s, cmp) && ConsistentOn(cmp, all)
    requires x in all && forall y :: y in s ==> y in all
    requires s != [] && cmp(s[0], x) > 0
    ensures SortedBy([x] + s, cmp)
  {
    assert s[0] in s;
    forall j | 0 <= j < |s| ensures cmp(x, s[j]) <= 0 {
      assert s[j] in s;
    }
  }

  lemma ConsSorted<T>(y: T, r: seq<T>, cmp: (T, T) -> int)
    requires SortedBy(r, cmp)
    requires forall k :: 0 <= k < |r| ==> cmp(y, r[k]) <= 0
    ensures SortedBy([y] + r, cmp)
  {
    var r' := [y] + r;
    forall i, j | 0 <= i < j < |r'| ensures cmp(r'[i], r'[j]) <= 0 {
      if i == 0 {
        assert r'[j] == r[j - 1];
      } else {
        assert r'[i] == r[i - 1] && r'[j] == r[j - 1];
      }
    }
  }

  /** With a consistent comparator, the sort orders its result. */
  lemma {:induction false} SortBySorted<T>(s: seq<T>, cmp: (T, T) -> int)
    requires ConsistentOn(cmp, s)
    ensures SortedBy(SortBy(s, cmp), cmp)
    decreases |s|
  {
    if s != [] {
      var init := s[..|s| - 1];
      assert forall y :: y in init ==> y in s;
      SortBySorted(init, cmp);
      var sorted := SortBy(init, cmp);
      SortByPermutes(init, cmp);
      forall y | y in sorted ensures y in s {
        assert y in multiset(sorted);
      }
      InsertSorted(s[|s| - 1], sorted, cmp, s);
    }
  }

  /** When every pair ties, the stable sort keeps the original order. */
  lemma {:induction false} SortByAllTies<T>(s: seq<T>, cmp: (T, T) -> int)
    requires forall a, b :: a in s && b in s ==> cmp(a, b) == 0
    ensures SortBy(s, cmp) == s
    decreases |s|
  {
    if s != [] {
      var init := s[..|s| - 1];
      assert forall y :: y in init ==> y in s;
      SortByAllTies(init, cmp);
      InsertAfterTies(s[|s| - 1], init, cmp);
      assert init + [s[|s| - 1]] == s;
    }
  }

  lemma {:induction false} InsertAfterTies<T>(x: T, s: seq<T>, cmp: (T, T) -> int)
    requires forall y :: y in s ==> cmp(y, x) == 0
    ensures Insert(x, s, cmp) == s + [x]
    decreases |s|
  {
    if s != [] {
      assert s[0] in s;
      assert forall y :: y in s[1..] ==> y in s;
      InsertAfterTies(x, s[1..], cmp);
      assert s == [s[0]] + s[1..];
    }
  }

  // ---------------------------------------------------------------------
  // Page windows

  function Min(a: int, b: int): int {
    if a <= b then a else b
  }

  /** `s.slice(start, start + size)` for a non-negative `start`. */
  function Window<T>(s: seq<T>, start: nat, size: nat): (r: seq<T>)
    ensures |r| <= size
  {
    s[Min(start, |s|)..Min(start + size, |s|)]
  }

  /** Pages `1..k` of size `size`, one after the other. */
  function FirstPages<T>(s: seq<T>, size: nat, k: nat): seq<T> {
    if k == 0 then [] else FirstPages(s, size, k - 1) + Window(s, (k - 1) * size, size)
  }

  lemma {:induction false} FirstPagesPrefix<T>(s: seq<T>, size: nat, k: nat)
    ensures FirstPages(s, size, k) == s[..Min(k * size, |s|)]
    decreases k
  {
    if k > 0 {
      FirstPagesPrefix(s, size, k - 1);
      assert (k - 1) * size + size == k * size;
      assert (k - 1) * size <= k * size;
    }
  }

  /** Walking enough pages reproduces the whole sequence, each element once. */
  lemma PagesCover<T>(s: seq<T>, size: nat, k: nat)
    requires k * size >= |s|
    ensures FirstPages(s, size, k) == s
  {
    FirstPagesPrefix(s, size, k);
  }

  // ---------------------------------------------------------------------
  // Sets kept in insertion order, and their sorted listing

  /** `Array.from(new Set(xs))`: each value once, where it first occurs. */
  function Distinct<T(==)>(xs: seq<T>): (r: seq<T>)
    ensures |r| <= |xs|
  {
    if xs == [] then []
    else
      var d := Distinct(xs[..|xs| - 1]);
      if xs[|xs| - 1] in d then d else d + [xs[|xs| - 1]]
  }

  predicate NoDuplicates<T(==)>(xs: seq<T>) {
    forall i, j :: 0 <= i < j < |xs| ==> xs[i] != xs[j]
  }

  lemma {:induction false} DistinctSpec<T>(xs: seq<T>)
    ensures NoDuplicates(Distinct(xs))
    ensures forall x :: x in Distinct(xs) <==> x in xs
    decreases |xs|
  {
    if xs != [] {
      var init := xs[..|xs| - 1];
      DistinctSpec(init);
      assert xs == init + [xs[|xs| - 1]];
    }
  }

  /** Filtering keeps a duplicate-free sequence duplicate-free. */
  lemma {:induction false} WhereNoDuplicates<T>(s: seq<T>, p: T -> bool)
    requires NoDuplicates(s)
    ensures NoDuplicates(Where(s, p))
    decreases |s|
  {
    if s != [] {
      var r := Where(s[1..], p);
      assert NoDuplicates(s[1..]) by {
        forall i, j | 0 <= i < j < |s[1..]| ensures s[1..][i] != s[1..][j] {
          assert s[1..][i] == s[i + 1] && s[1..][j] == s[j + 1];
        }
      }
      WhereNoDuplicates(s[1..], p);
      if p(s[0]) {
        forall k | 0 <= k < |r| ensures r[k] != s[0] {
          WhereMembers(s[1..], p, r[k]);
          var m :| 0 <= m < |s[1..]| && s[1..][m] == r[k];
          assert s[m + 1] == r[k];
        }
        assert Where(s, p) == [s[0]] + r;
      }
    }
  }

  /** `set.add(v)` on a set kept in insertion order. */
  function Add<T(==)>(s: seq<T>, v: T): seq<T> {
    if v in s then s else s + [v]
  }

  /** Adding one more value to the set. */
  lemma DistinctSnoc<T>(xs: seq<T>, y: T)
    ensures Distinct(xs + [y]) == Add(Distinct(xs), y)
  {
    assert (xs + [y])[..|xs|] == xs;
  }

  predicate StrictlySorted(xs: seq<string>) {
    forall i, j :: 0 <= i < j < |xs| ==> LexCmp(xs[i], xs[j]) < 0
  }

  /** `Array.from(set).sort()` on strings: the distinct values in code-point order. */
  function SortedDistinct(xs: seq<string>): (r: seq<string>)
    ensures |r| <= |xs|
  {
    SortBy(Distinct(xs), LexCmp)
  }

  lemma LexCmpConsistent(xs: seq<string>)
    ensures ConsistentOn(LexCmp, xs)
  {
    forall a, b | a in xs && b in xs ensures LexCmp(a, b) < 0 <==> LexCmp(b, a) > 0 {
      LexCmpAntisymmetric(a, b);
    }
    forall a, b, c | a in xs && b in xs && c in xs && LexCmp(a, b) <= 0 && LexCmp(b, c) <= 0
      ensures LexCmp(a, c) <= 0
    {
      LexCmpTransitive(a, b, c);
    }
  }

  /** The listing is strictly increasing and holds exactly the values of `xs`. */
  lemma SortedDistinctSpec(xs: seq<string>)
    ensures StrictlySorted(SortedDistinct(xs))
    ensures forall x :: x in SortedDistinct(xs) <==> x in xs
  {
    var d := Distinct(xs);
    var r := SortedDistinct(xs);
    DistinctSpec(xs);
    LexCmpConsistent(d);
    SortBySorted(d, LexCmp);
    SortByPermutes(d, LexCmp);
    PermutationMembers(d, r);
    PermutationNoDuplicates(d, r);
    forall i, j | 0 <= i < j < |r| ensures LexCmp(r[i], r[j]) < 0 {
      LexCmpZeroIsEqual(r[i], r[j]);
    }
  }

  lemma PermutationMembers<T>(a: seq<T>, b: seq<T>)
    requires multiset(a) == multiset(b)
    ensures forall x :: x in a <==> x in b
  {
    forall x ensures x in a <==> x in b {
      assert x in a <==> x in multiset(a);
      assert x in b <==> x in multiset(b);
    }
  }

  lemma PermutationNoDuplicates<T>(a: seq<T>, b: seq<T>)
    requires multiset(a) == multiset(b) && NoDuplicates(a)
    ensures NoDuplicates(b)
  {
    forall i, j | 0 <= i < j < |b| ensures b[i] != b[j] {
      if b[i] == b[j] {
        RepeatCounts(b, i, j);
        NoDuplicatesCount(a, b[i]);
      }
    }
  }

  lemma RepeatCounts<T>(xs: seq<T>, i: int, j: int)
    requires 0 <= i < j < |xs| && xs[i] == xs[j]
    ensures multiset(xs)[xs[i]] >= 2
  {
    var x := xs[i];
    assert xs == xs[..j] + xs[j..];
    assert multiset(xs) == multiset(xs[..j]) + multiset(xs[j..]);
    assert x in xs[..j];
    assert xs[j..][0] == x;
    assert x in multiset(xs[..j]) && x in multiset(xs[j..]);
  }

  lemma {:induction false} NoDuplicatesCount<T>(xs: seq<T>, x: T)
    requires NoDuplicates(xs)
    ensures multiset(xs)[x] <= 1
    decreases |xs|
  {
    if xs != [] {
      var init := xs[..|xs| - 1];
      NoDuplicatesCount(init, x);
      assert xs == init + [xs[|xs| - 1]];
      if x == xs[|xs| - 1] {
        assert x !in init;
      }
    }
  }

  /** In a strictly increasing list the head comes before every other value. */
  lemma HeadFirst(a: seq<string>, x: string)
    requires StrictlySorted(a) && a != [] && x in a
    ensures x == a[0] || LexCmp(a[0], x) < 0
    ensures x in a[1..] <==> x != a[0]
  {
    var k :| 0 <= k < |a| && a[k] == x;
    if k != 0 {
      LexCmpZeroIsEqual(a[0], a[k]);
    }
    if x in a[1..] {
      var m :| 1 <= m < |a| && a[m] == x;
      LexCmpZeroIsEqual(a[0], a[m]);
    }
  }

  /** Two strictly increasing lists with the same values are the same list. */
  lemma {:induction false} StrictlySortedUnique(a: seq<string>, b: seq<string>)
    requires StrictlySorted(a) && StrictlySorted(b)
    requires forall x :: x in a <==> x in b
    ensures a == b
    decreases |a|
  {
    if a != [] {
      assert a[0] in b;
    }
    if b != [] {
      assert b[0] in a;
    }
    if a != [] && b != [] {
      HeadFirst(a, b[0]);
      HeadFirst(b, a[0]);
      LexCmpAntisymmetric(a[0], b[0]);
      assert a[0] == b[0];
      forall x ensures x in a[1..] <==> x in b[1..] {
        if x in a {
          HeadFirst(a, x);
          HeadFirst(b, x);
        }
      }
      StrictlySortedUnique(a[1..], b[1..]);
      assert a == [a[0]] + a[1..] && b == [b[0]] + b[1..];
    }
  }

  // ---------------------------------------------------------------------
  // Remove, split, trim, drop the empty pieces

  /** A piece as the split, trim and drop-empty steps leave it: not empty, no
      surrounding white space, none of the removed or separating characters. */
  predicate Clean(x: string, junk: set<char>, seps: set<char>) {
    x != "" && !IsWs(x[0]) && !IsWs(x[|x| - 1]) && FreeOf(x, junk) && FreeOf(x, seps)
  }

  /** Remove the `junk` characters, split at the `seps`, trim every piece and
      drop the empty ones. */
  function Pieces(s: string, junk: set<char>, seps: set<char>): seq<string> {
    Where(TrimAll(SplitOn(RemoveAll(s, junk), seps)), NonEmptyText)
  }

  /** Every piece those steps yield is clean. */
  lemma PiecesClean(s: string, junk: set<char>, seps: set<char>)
    ensures forall x :: x in Pieces(s, junk, seps) ==> Clean(x, junk, seps)
  {
    var cleaned := RemoveAll(s, junk);
    var pieces := SplitOn(cleaned, seps);
    var trimmed := TrimAll(pieces);
    SplitOnFree(cleaned, seps);
    SplitOnKeepsFree(cleaned, seps, junk);
    forall x | x in Pieces(s, junk, seps) ensures Clean(x, junk, seps) {
      WhereMembers(trimmed, NonEmptyText, x);
      var i :| 0 <= i < |trimmed| && trimmed[i] == x;
      assert pieces[i] in pieces;
      TrimSpec(pieces[i]);
      TrimFree(pieces[i], seps);
      TrimFree(pieces[i], junk);
    }
  }

  /** Clean pieces joined by one separator come back unchanged. */
  lemma PiecesOfJoin(xs: seq<string>, sep: char, junk: set<char>, seps: set<char>)
    requires sep in seps && sep !in junk
    requires forall j :: 0 <= j < |xs| ==> Clean(xs[j], junk, seps)
    ensures Pieces(Join(xs, [sep]), junk, seps) == xs
  {
    var s := Join(xs, [sep]);
    if |xs| == 0 {
      EmptyPieces(junk, seps);
    } else {
      JoinSplits(xs, sep, junk, seps);
      CleanUntouched(xs, junk, seps);
    }
  }

  lemma EmptyPieces(junk: set<char>, seps: set<char>)
    ensures Pieces("", junk, seps) == []
  {
    assert SplitOn("", seps) == [""];
    assert TrimAll([""]) == [""];
  }

  lemma JoinNotEmpty(xs: seq<string>, sep: string, junk: set<char>, seps: set<char>)
    requires |xs| >= 1 && Clean(xs[0], junk, seps)
    ensures Join(xs, sep) != ""
  {
    JoinFree(xs, sep, {});
  }

  lemma JoinSplits(xs: seq<string>, sep: char, junk: set<char>, seps: set<char>)
    requires |xs| >= 1 && sep in seps && sep !in junk
    requires forall j :: 0 <= j < |xs| ==> Clean(xs[j], junk, seps)
    ensures SplitOn(RemoveAll(Join(xs, [sep]), junk), seps) == xs
  {
    var s := Join(xs, [sep]);
    assert FreeOf([sep], junk);
    JoinFree(xs, [sep], junk);
    RemoveAllFree(s, junk);
    SplitJoin(xs, sep, seps);
  }

  /** Clean pieces survive trimming and the empty-piece filter unchanged. */
  lemma CleanUntouched(xs: seq<string>, junk: set<char>, seps: set<char>)
    requires forall j :: 0 <= j < |xs| ==> Clean(xs[j], junk, seps)
    ensures Where(TrimAll(xs), NonEmptyText) == xs
  {
    forall j | 0 <= j < |xs| ensures Trim(xs[j]) == xs[j] {
      TrimUntouched(xs[j]);
    }
    assert TrimAll(xs) == xs;
    WhereNonEmpty(xs);
  }

  lemma {:induction false} WhereNonEmpty(xs: seq<string>)
    requires forall j :: 0 <= j < |xs| ==> xs[j] != ""
    ensures Where(xs, NonEmptyText) == xs
    decreases |xs|
  {
    if xs != [] {
      WhereNonEmpty(xs[1..]);
      assert xs == [xs[0]] + xs[1..];
    }
  }
}
