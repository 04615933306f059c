/** Character classes and string operations with JavaScript's semantics:
    `trim`, `split` on a character class and on `/\s+/`, `join`, `startsWith`,
    ASCII `toLowerCase`, and the code-point order used by the default `sort()`. */
module Text {

  /** JavaScript's white space and line terminators: the class matched by `\s`
      and removed by `trim()`. */
  predicate IsWs(c: char) {
    var n := c as int;
    n == 0x09 || n == 0x0A || n == 0x0B || n == 0x0C || n == 0x0D || n == 0x20 ||
    n == 0xA0 || n == 0x1680 || (0x2000 <= n <= 0x200A) || n == 0x2028 || n == 0x2029 ||
    n == 0x202F || n == 0x205F || n == 0x3000 || n == 0xFEFF
  }

  /** The characters of `\w`, which decide where `\b` stands. */
  predicate IsWordChar(c: char) {
    ('a' <= c <= 'z') || ('A' <= c <= 'Z') || ('0' <= c <= '9') || c == '_'
  }

  predicate IsDigit(c: char) {
    '0' <= c <= '9'
  }

  predicate NoWs(s: string) {
    forall i :: 0 <= i < |s| ==> !IsWs(s[i])
  }

  /** `toLowerCase`, restricted to ASCII letters. */
  function LowerChar(c: char): (r: char)
    ensures IsWs(r) == IsWs(c) && IsWordChar(r) == IsWordChar(c)
  {
    if 'A' <= c <= 'Z' then (c as int + 32) as char else c
  }

  function Lower(s: string): (r: string)
    ensures |r| == |s|
    ensures forall i :: 0 <= i < |s| ==> r[i] == LowerChar(s[i])
  {
    seq(|s|, i requires 0 <= i < |s| => LowerChar(s[i]))
  }

  function StartsWith(s: string, prefix: string): bool {
    |prefix| <= |s| && s[..|prefix|] == prefix
  }

  /** Drops the leading white space. */
  function TrimStart(s: string): (r: string)
    ensures |r| <= |s| && r == s[|s| - |r|..]
    ensures r == [] || !IsWs(r[0])
    ensures forall i :: 0 <= i < |s| - |r| ==> IsWs(s[i])
  {
    if |s| > 0 && IsWs(s[0]) then TrimStart(s[1..]) else s
  }

  /** Drops the trailing white space. */
  function TrimEnd(s: string): (r: string)
    ensures |r| <= |s| && r == s[..|r|]
    ensures r == [] || !IsWs(r[|r| - 1])
    ensures forall i :: |r| <= i < |s| ==> IsWs(s[i])
  {
    if |s| > 0 && IsWs(s[|s| - 1]) then TrimEnd(s[..|s| - 1]) else s
  }

  /** `String.prototype.trim`. */
  function Trim(s: string): string {
    TrimEnd(TrimStart(s))
  }

  /** The trimmed string is empty exactly when the input is all white space;
      otherwise it neither starts nor ends with white space. */
  lemma TrimSpec(s: string)
    ensures Trim(s) == [] <==> forall i :: 0 <= i < |s| ==> IsWs(s[i])
    ensures Trim(s) != [] ==> !IsWs(Trim(s)[0]) && !IsWs(Trim(s)[|Trim(s)| - 1])
  {
    var t := TrimStart(s);
    assert Trim(s) == [] ==> t == [] by {
      if Trim(s) == [] && t != [] {
        assert false;
      }
    }
  }

  /** `s.split(/\s+/)`: the pieces between maximal runs of white space.
      A leading or trailing run yields an empty first or last piece. */
  function SplitWs(s: string): (r: seq<string>)
    ensures |r| >= 1
    decreases |s|
  {
    if |s| == 0 then [""]
    else if IsWs(s[0]) then [""] + SplitWs(TrimStart(s))
    else
      var rest := SplitWs(s[1..]);
      [[s[0]] + rest[0]] + rest[1..]
  }

  /** A word without white space, then the rest: the word joins the rest's first piece. */
  lemma {:induction false} SplitWsWordThen(u: string, rest: string)
    requires NoWs(u)
    ensures SplitWs(u + rest) == [u + SplitWs(rest)[0]] + SplitWs(rest)[1..]
    decreases |u|
  {
    var p := SplitWs(rest);
    if u != [] {
      var a := u[1..] + rest;
      SplitWsWordThen(u[1..], rest);
      var pa := SplitWs(a);
      assert pa[0] == u[1..] + p[0] && pa[1..] == p[1..];
      assert u + rest == [u[0]] + a;
      SplitWsCons(u[0], a);
      assert [u[0]] + pa[0] == u + p[0];
    } else {
      assert u + rest == rest && u + p[0] == p[0];
      assert [p[0]] + p[1..] == p;
    }
  }

  /** A character that is not white space joins the first piece. */
  lemma SplitWsCons(c: char, t: string)
    requires !IsWs(c)
    ensures SplitWs([c] + t) == [[c] + SplitWs(t)[0]] + SplitWs(t)[1..]
  {
    assert ([c] + t)[1..] == t;
  }

  /** Two words without white space, one space apart, split into the two words. */
  lemma SplitWsTwoWords(u: string, v: string)
    requires u != "" && v != "" && NoWs(u) && NoWs(v)
    ensures SplitWs(u + " " + v) == [u, v]
  {
    var rest := " " + v;
    assert u + " " + v == u + rest;
    assert TrimStart(rest) == v by {
      assert rest[1..] == v;
      assert TrimStart(v) == v;
    }
    SplitWsSingle(v);
    assert SplitWs(rest) == [""] + [v] by {
      assert IsWs(rest[0]);
    }
    SplitWsWordThen(u, rest);
    assert u + "" == u;
  }

  /** A string that neither starts nor ends with white space is its own trim. */
  lemma TrimUntouched(s: string)
    requires s != "" && !IsWs(s[0]) && !IsWs(s[|s| - 1])
    ensures Trim(s) == s
  {
    assert TrimStart(s) == s;
  }

  /** No piece of `split(/\s+/)` holds white space. */
  lemma {:induction false} SplitWsNoWs(s: string)
    ensures forall t :: t in SplitWs(s) ==> NoWs(t)
    decreases |s|
  {
    if |s| > 0 && IsWs(s[0]) {
      SplitWsNoWs(TrimStart(s));
    } else if |s| > 0 {
      var rest := SplitWs(s[1..]);
      SplitWsNoWs(s[1..]);
      assert rest[0] in rest;
      assert NoWs([s[0]] + rest[0]);
      assert forall t :: t in rest[1..] ==> t in rest;
    }
  }

  /** No character of `x` is in `delims`. */
  predicate FreeOf(x: string, delims: set<char>) {
    forall i :: 0 <= i < |x| ==> x[i] !in delims
  }

  /** Trimming keeps a string free of the characters it was free of. */
  lemma TrimFree(s: string, d: set<char>)
    requires FreeOf(s, d)
    ensures FreeOf(Trim(s), d)
  {
    var t := TrimStart(s);
    var k := |s| - |t|;
    forall i | 0 <= i < |t| ensures t[i] !in d {
      assert t[i] == s[k + i];
    }
    var u := TrimEnd(t);
    forall i | 0 <= i < |u| ensures u[i] !in d {
      assert u[i] == t[i];
    }
  }

  /** `s.split(D)` for a set of single-character separators: every separator
      ends a piece, so `n` separators give `n + 1` pieces. */
  function SplitOn(s: string, delims: set<char>): (r: seq<string>)
    ensures |r| >= 1
  {
    if |s| == 0 then [""]
    else if s[0] in delims then [""] + SplitOn(s[1..], delims)
    else
      var rest := SplitOn(s[1..], delims);
      [[s[0]] + rest[0]] + rest[1..]
  }

  /** No piece of `split(D)` holds a separator. */
  lemma {:induction false} SplitOnFree(s: string, delims: set<char>)
    ensures forall t :: t in SplitOn(s, delims) ==> FreeOf(t, delims)
    decreases |s|
  {
    if |s| > 0 {
      var rest := SplitOn(s[1..], delims);
      SplitOnFree(s[1..], delims);
      if s[0] !in delims {
        assert rest[0] in rest;
        assert FreeOf([s[0]] + rest[0], delims);
        assert forall t :: t in rest[1..] ==> t in rest;
      }
    }
  }

  /** `Boolean(s)` for a string: only the empty string is falsy. */
  predicate NonEmptyText(s: string) {
    s != ""
  }

  /** `xs.map((x) => x.trim())`. */
  function TrimAll(xs: seq<string>): (r: seq<string>)
    ensures |r| == |xs| && forall i :: 0 <= i < |xs| ==> r[i] == Trim(xs[i])
  {
    seq(|xs|, i requires 0 <= i < |xs| => Trim(xs[i]))
  }

  /** `xs.join(sep)`. */
  function Join(xs: seq<string>, sep: string): string {
    if |xs| == 0 then ""
    else if |xs| == 1 then xs[0]
    else xs[0] + sep + Join(xs[1..], sep)
  }

  /** Removes every character in `drop` (`replace(/[...]/g, '')`). */
  function RemoveAll(s: string, drop: set<char>): (r: string)
    ensures forall i :: 0 <= i < |r| ==> r[i] !in drop
    ensures |r| <= |s|
  {
    if |s| == 0 then ""
    else (if s[0] in drop then "" else [s[0]]) + RemoveAll(s[1..], drop)
  }

  /** Keeps only the characters satisfying `IsDigit` (`replace(/\D/g, '')`). */
  function DigitsOnly(s: string): (r: string)
    ensures forall i :: 0 <= i < |r| ==> IsDigit(r[i])
    ensures |r| <= |s|
  {
    if |s| == 0 then ""
    else (if IsDigit(s[0]) then [s[0]] else "") + DigitsOnly(s[1..])
  }

  /** Removing characters a string does not hold changes nothing. */
  lemma {:induction false} RemoveAllFree(s: string, drop: set<char>)
    requires FreeOf(s, drop)
    ensures RemoveAll(s, drop) == s
    decreases |s|
  {
    if |s| > 0 {
      assert FreeOf(s[1..], drop);
      RemoveAllFree(s[1..], drop);
      assert s == [s[0]] + s[1..];
    }
  }

  /** The pieces of a split hold only characters of the split string. */
  lemma {:induction false} SplitOnKeepsFree(s: string, delims: set<char>, other: set<char>)
    requires FreeOf(s, other)
    ensures forall x :: x in SplitOn(s, delims) ==> FreeOf(x, other)
    decreases |s|
  {
    if |s| > 0 {
      assert FreeOf(s[1..], other);
      SplitOnKeepsFree(s[1..], delims, other);
      var rest := SplitOn(s[1..], delims);
      assert forall x :: x in rest[1..] ==> x in rest;
      if s[0] !in delims {
        assert rest[0] in rest;
        assert FreeOf([s[0]] + rest[0], other);
      }
    }
  }

  /** Joining pieces free of some characters with a separator free of them
      gives a string free of them, at least as long as the first piece. */
  lemma {:induction false} JoinFree(xs: seq<string>, sep: string, other: set<char>)
    requires FreeOf(sep, other)
    requires forall j :: 0 <= j < |xs| ==> FreeOf(xs[j], other)
    ensures FreeOf(Join(xs, sep), other)
    ensures |xs| >= 1 ==> |Join(xs, sep)| >= |xs[0]|
    decreases |xs|
  {
    if |xs| >= 2 {
      JoinFree(xs[1..], sep, other);
      var tail := Join(xs[1..], sep);
      var all := xs[0] + sep + tail;
      forall i | 0 <= i < |all| ensures all[i] !in other {
        if i < |xs[0]| {
          assert all[i] == xs[0][i];
        } else if i < |xs[0]| + |sep| {
          assert all[i] == sep[i - |xs[0]|];
        } else {
          assert all[i] == tail[i - |xs[0]| - |sep|];
        }
      }
    }
  }

  /** Three-way comparison in code-point order: the default `sort()` order
      and the store's binary string order. */
  function LexCmp(a: string, b: string): (r: int)
    ensures -1 <= r <= 1
  {
    if |a| == 0 && |b| == 0 then 0
    else if |a| == 0 then -1
    else if |b| == 0 then 1
    else if a[0] < b[0] then -1
    else if a[0] > b[0] then 1
    else LexCmp(a[1..], b[1..])
  }

  // ---------------------------------------------------------------------
  // The code-point order is a total order

  lemma {:induction false} LexCmpAntisymmetric(a: string, b: string)
    ensures LexCmp(a, b) == -LexCmp(b, a)
    decreases |a|
  {
    if |a| > 0 && |b| > 0 && a[0] == b[0] {
      LexCmpAntisymmetric(a[1..], b[1..]);
    }
  }

  lemma {:induction false} LexCmpZeroIsEqual(a: string, b: string)
    ensures LexCmp(a, b) == 0 <==> a == b
    decreases |a|
  {
    if |a| > 0 && |b| > 0 && a[0] == b[0] {
      LexCmpZeroIsEqual(a[1..], b[1..]);
      if a[1..] == b[1..] {
        assert a == [a[0]] + a[1..] && b == [b[0]] + b[1..];
      }
    }
  }

  lemma {:induction false} LexCmpTransitive(a: string, b: string, c: string)
    requires LexCmp(a, b) <= 0 && LexCmp(b, c) <= 0
    ensures LexCmp(a, c) <= 0
    decreases |a|
  {
    if |a| > 0 && |b| > 0 && |c| > 0 && a[0] == b[0] == c[0] {
      LexCmpTransitive(a[1..], b[1..], c[1..]);
    }
  }

  // ---------------------------------------------------------------------
  // Word-start prefixes: what `split(/\s+/)` followed by `startsWith` finds

  /** `w` occurs in `s` at the start of `s` or right after a white-space character. */
  predicate PrefixAtWordStart(s: string, w: string) {
    exists i :: 0 <= i <= |s| && (i == 0 || IsWs(s[i - 1])) && StartsWith(s[i..], w)
  }

  /** `w` occurs in `s` right after a white-space character. */
  predicate PrefixAfterWs(s: string, w: string) {
    exists i :: 1 <= i <= |s| && IsWs(s[i - 1]) && StartsWith(s[i..], w)
  }

  /** Some piece starts with `w`. */
  predicate SomePieceStartsWith(pieces: seq<string>, w: string) {
    exists t :: t in pieces && StartsWith(t, w)
  }

  /** The longest prefix of `s` without white space. */
  function TakeNonWs(s: string): (r: string)
    ensures |r| <= |s| && r == s[..|r|] && NoWs(r)
    ensures |r| < |s| ==> IsWs(s[|r|])
  {
    if |s| == 0 || IsWs(s[0]) then "" else [s[0]] + TakeNonWs(s[1..])
  }

  lemma {:induction false} FirstPiece(s: string)
    ensures SplitWs(s)[0] == TakeNonWs(s)
    decreases |s|
  {
    if |s| > 0 && !IsWs(s[0]) {
      FirstPiece(s[1..]);
    }
  }

  /** For a word without white space, being a prefix of the first piece is being a prefix of the string. */
  lemma {:induction false} PrefixOfFirstPiece(s: string, w: string)
    requires NoWs(w)
    ensures StartsWith(TakeNonWs(s), w) <==> StartsWith(s, w)
    decreases |w|
  {
    if |w| > 0 && |s| > 0 && !IsWs(s[0]) {
      PrefixOfFirstPiece(s[1..], w[1..]);
      var t := TakeNonWs(s[1..]);
      assert StartsWith([s[0]] + t, w) <==> s[0] == w[0] && StartsWith(t, w[1..]);
      assert StartsWith(s, w) <==> s[0] == w[0] && StartsWith(s[1..], w[1..]);
    }
  }

  lemma SomePieceCons(pieces: seq<string>, w: string)
    requires |pieces| >= 1
    ensures SomePieceStartsWith(pieces, w) <==>
            StartsWith(pieces[0], w) || SomePieceStartsWith(pieces[1..], w)
  {
    if SomePieceStartsWith(pieces, w) {
      var t :| t in pieces && StartsWith(t, w);
      if t != pieces[0] {
        assert t in pieces[1..];
      }
    }
    if SomePieceStartsWith(pieces[1..], w) {
      var t :| t in pieces[1..] && StartsWith(t, w);
      assert t in pieces;
    }
  }

  /** Skipping a leading run of white space: the hits after white space in `s` are
      the hit at the start of the rest and the hits after white space in it. */
  lemma PrefixAfterWsSkip(s: string, w: string)
    requires w != [] && NoWs(w) && |s| > 0 && IsWs(s[0])
    ensures PrefixAfterWs(s, w) <==>
            StartsWith(TrimStart(s), w) || PrefixAfterWs(TrimStart(s), w)
  {
    SkipForward(s, w);
    SuffixHit(s, |s| - |TrimStart(s)|, w);
    SkipBackFirst(s, w);
  }

  lemma SkipForward(s: string, w: string)
    requires w != [] && NoWs(w) && |s| > 0 && IsWs(s[0])
    ensures PrefixAfterWs(s, w) ==> StartsWith(TrimStart(s), w) || PrefixAfterWs(TrimStart(s), w)
  {
    if PrefixAfterWs(s, w) {
      SkipForwardHit(s, w);
    }
  }

  lemma SkipForwardHit(s: string, w: string)
    requires w != [] && NoWs(w) && |s| > 0 && IsWs(s[0]) && PrefixAfterWs(s, w)
    ensures StartsWith(TrimStart(s), w) || PrefixAfterWs(TrimStart(s), w)
  {
    var u := TrimStart(s);
    var k := |s| - |u|;
    assert s[k..] == u;
    var i :| 1 <= i <= |s| && IsWs(s[i - 1]) && StartsWith(s[i..], w);
    assert s[i] == w[0];
    assert !IsWs(s[i]);
    assert i >= k;
    if i > k {
      assert u[i - k..] == s[i..];
      assert u[i - k - 1] == s[i - 1];
      assert 1 <= i - k <= |u| && IsWs(u[i - k - 1]) && StartsWith(u[i - k..], w);
    }
  }

  /** A hit after white space in a suffix is one in the whole string. */
  lemma SuffixHit(s: string, k: nat, w: string)
    requires k <= |s|
    ensures PrefixAfterWs(s[k..], w) ==> PrefixAfterWs(s, w)
  {
    if PrefixAfterWs(s[k..], w) {
      SuffixHitAt(s, k, w);
    }
  }

  lemma SuffixHitAt(s: string, k: nat, w: string)
    requires k <= |s| && PrefixAfterWs(s[k..], w)
    ensures PrefixAfterWs(s, w)
  {
    var u := s[k..];
    var i :| 1 <= i <= |u| && IsWs(u[i - 1]) && StartsWith(u[i..], w);
    var j := k + i;
    assert s[j - 1] == u[i - 1];
    assert s[j..] == u[i..];
    assert IsWs(s[j - 1]) && StartsWith(s[j..], w);
  }

  lemma SkipBackFirst(s: string, w: string)
    requires |s| > 0 && IsWs(s[0])
    ensures StartsWith(TrimStart(s), w) ==> PrefixAfterWs(s, w)
  {
    if StartsWith(TrimStart(s), w) {
      SkipBackFirstHit(s, w);
    }
  }

  lemma SkipBackFirstHit(s: string, w: string)
    requires |s| > 0 && IsWs(s[0]) && StartsWith(TrimStart(s), w)
    ensures PrefixAfterWs(s, w)
  {
    var u := TrimStart(s);
    var k := |s| - |u|;
    assert k >= 1 && s[k..] == u;
    assert IsWs(s[k - 1]);
    assert 1 <= k <= |s| && IsWs(s[k - 1]) && StartsWith(s[k..], w);
  }

  /** A leading non-white-space character never precedes a hit. */
  lemma PrefixAfterWsStep(s: string, w: string)
    requires |s| > 0 && !IsWs(s[0])
    ensures PrefixAfterWs(s, w) <==> PrefixAfterWs(s[1..], w)
  {
    var s' := s[1..];
    if PrefixAfterWs(s, w) {
      var i :| 1 <= i <= |s| && IsWs(s[i - 1]) && StartsWith(s[i..], w);
      assert i != 1;
      assert s'[i - 1..] == s[i..];
      assert s'[i - 2] == s[i - 1];
      assert 1 <= i - 1 <= |s'| && IsWs(s'[i - 2]) && StartsWith(s'[i - 1..], w);
    }
    if PrefixAfterWs(s', w) {
      var i :| 1 <= i <= |s'| && IsWs(s'[i - 1]) && StartsWith(s'[i..], w);
      assert s[i + 1..] == s'[i..];
      assert s[i] == s'[i - 1];
      assert 1 <= i + 1 <= |s| && IsWs(s[i]) && StartsWith(s[i + 1..], w);
    }
  }

  /** The pieces after the first start exactly at the positions that follow white space. */
  lemma {:induction false} LaterPieces(s: string, w: string)
    requires w != [] && NoWs(w)
    ensures SomePieceStartsWith(SplitWs(s)[1..], w) <==> PrefixAfterWs(s, w)
    decreases |s|
  {
    if |s| == 0 {
    } else if IsWs(s[0]) {
      var u := TrimStart(s);
      assert SplitWs(s)[1..] == SplitWs(u);
      LaterPieces(u, w);
      FirstPiece(u);
      PrefixOfFirstPiece(u, w);
      SomePieceCons(SplitWs(u), w);
      PrefixAfterWsSkip(s, w);
    } else {
      var rest := SplitWs(s[1..]);
      assert SplitWs(s)[1..] == rest[1..];
      LaterPieces(s[1..], w);
      PrefixAfterWsStep(s, w);
    }
  }

  /** Splitting on white space and testing each piece with `startsWith(w)` finds
      exactly the occurrences of `w` at a word start. */
  lemma SplitWsPrefix(s: string, w: string)
    requires w != [] && NoWs(w)
    ensures SomePieceStartsWith(SplitWs(s), w) <==> PrefixAtWordStart(s, w)
  {
    FirstPiece(s);
    PrefixOfFirstPiece(s, w);
    LaterPieces(s, w);
    SomePieceCons(SplitWs(s), w);
    if PrefixAtWordStart(s, w) {
      var i :| 0 <= i <= |s| && (i == 0 || IsWs(s[i - 1])) && StartsWith(s[i..], w);
      if i == 0 {
        assert s[0..] == s;
      }
    }
    if StartsWith(s, w) {
      assert s[0..] == s;
    }
  }

  /** A string splits into one piece exactly when it has no white space, and
      the piece is then the string itself. */
  lemma {:induction false} SplitWsSingle(s: string)
    ensures |SplitWs(s)| == 1 <==> NoWs(s)
    ensures NoWs(s) ==> SplitWs(s) == [s]
    decreases |s|
  {
    if |s| > 0 {
      if IsWs(s[0]) {
        assert |SplitWs(s)| == 1 + |SplitWs(TrimStart(s))|;
      } else {
        SplitWsSingle(s[1..]);
        assert NoWs(s) <==> NoWs(s[1..]) by {
          if NoWs(s[1..]) {
            forall i | 0 <= i < |s| ensures !IsWs(s[i]) {
              if i > 0 {
                assert s[i] == s[1..][i - 1];
              }
            }
          }
        }
        if NoWs(s) {
          assert [s[0]] + s[1..] == s;
        }
      }
    }
  }

  /** Lower-casing keeps a string blank or non-blank. */
  lemma TrimLowerBlank(s: string)
    ensures Trim(Lower(s)) == [] <==> Trim(s) == []
  {
    TrimSpec(s);
    TrimSpec(Lower(s));
  }

  /** Splitting a trimmed, non-empty string on white space gives non-empty words. */
  lemma {:induction false} SplitWsOfTrimmed(s: string)
    requires s != [] && !IsWs(s[0]) && !IsWs(s[|s| - 1])
    ensures forall t :: t in SplitWs(s) ==> t != []
    decreases |s|
  {
    var rest := SplitWs(s[1..]);
    if |s| > 1 {
      if IsWs(s[1]) {
        var u := TrimStart(s[1..]);
        assert u != [] && u[|u| - 1] == s[|s| - 1];
        SplitWsOfTrimmed(u);
        assert rest == [""] + SplitWs(u);
        assert rest[1..] == SplitWs(u);
      } else {
        SplitWsOfTrimmed(s[1..]);
        assert forall t :: t in rest[1..] ==> t in rest;
      }
    }
  }

  // ---------------------------------------------------------------------
  // Joining and splitting are inverse when no piece holds a separator

  lemma {:induction false} SplitJoin(xs: seq<string>, sep: char, delims: set<char>)
    requires |xs| >= 1 && sep in delims
    requires forall j :: 0 <= j < |xs| ==> FreeOf(xs[j], delims)
    ensures SplitOn(Join(xs, [sep]), delims) == xs
    decreases |xs|
  {
    if |xs| == 1 {
      SplitOnPlain(xs[0], delims);
    } else {
      var tail := Join(xs[1..], [sep]);
      SplitJoin(xs[1..], sep, delims);
      var y := [sep] + tail;
      assert y[1..] == tail;
      assert Join(xs, [sep]) == xs[0] + y;
      SplitOnPrefix(xs[0], y, delims);
      assert xs == [xs[0]] + xs[1..];
    }
  }

  /** A string free of separators splits into itself. */
  lemma {:induction false} SplitOnPlain(x: string, delims: set<char>)
    requires FreeOf(x, delims)
    ensures SplitOn(x, delims) == [x]
    decreases |x|
  {
    if |x| > 0 {
      assert FreeOf(x[1..], delims);
      SplitOnPlain(x[1..], delims);
      assert x == [x[0]] + x[1..];
    }
  }

  /** A separator-free prefix glues onto the first piece of what follows. */
  lemma {:induction false} SplitOnPrefix(x: string, y: string, delims: set<char>)
    requires FreeOf(x, delims)
    requires |y| > 0 && y[0] in delims
    ensures SplitOn(x + y, delims) == [x] + SplitOn(y[1..], delims)
    decreases |x|
  {
    if |x| == 0 {
      assert x + y == y;
    } else {
      assert FreeOf(x[1..], delims);
      SplitOnPrefix(x[1..], y, delims);
      var z := x + y;
      assert z[0] == x[0] && z[0] !in delims;
      assert z[1..] == x[1..] + y;
      var rest := SplitOn(z[1..], delims);
      assert SplitOn(z, delims) == [[z[0]] + rest[0]] + rest[1..];
      assert rest == [x[1..]] + SplitOn(y[1..], delims);
      assert rest[0] == x[1..] && rest[1..] == SplitOn(y[1..], delims);
      assert [z[0]] + rest[0] == x;
    }
  }
}
