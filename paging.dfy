/**
 * One page of a query result. The database returns the rows of page
 * `from / size` (or, for a skip-and-limit stream, the rows after the first
 * `from`); which rows those are depends on an ORDER BY that is not modelled,
 * so a page is any window of the right length over distinct matching rows.
 */
module Paging {
  import opened Seqs

  /** The number of rows on a page that starts at row `offset` of `n` rows. */
  function PageLength(n: nat, offset: nat, size: nat): (len: nat)
    ensures len <= size
    ensures offset + len <= n || len == 0
    ensures offset < n && size > 0 ==> len > 0
    ensures offset + size <= n ==> len == size
    ensures offset < n < offset + size ==> len == n - offset
  {
    if offset >= n then 0 else if n - offset < size then n - offset else size
  }

  /** Java's `int` division, which truncates toward zero (Dafny's `/` is Euclidean). */
  function JavaDiv(a: int, b: int): (q: int)
    requires b != 0
    ensures q == 0 <==> Abs(a) < Abs(b)
    ensures q > 0 ==> (a < 0) == (b < 0)
    ensures q < 0 ==> (a < 0) != (b < 0)
    ensures a >= 0 && b > 0 ==> q == a / b
  {
    var m := Abs(a) / Abs(b);
    if (a < 0) == (b < 0) then m else -m
  }

  function Abs(x: int): nat {
    if x < 0 then -x else x
  }

  /** Truncation is symmetric in the sign of the dividend, which Euclidean division is not. */
  lemma JavaDivIsOdd(a: int, b: int)
    requires b != 0
    ensures JavaDiv(-a, b) == -JavaDiv(a, b)
  {
  }

  /**
   * With a positive page size, `from / size` is a valid page index exactly
   * when `from > -size`; a negative `from` in that range lands on page 0,
   * and a non-negative one on the page `PageOffset` starts.
   */
  lemma PageIndexOfOffset(from: int, size: int)
    requires size > 0
    ensures JavaDiv(from, size) >= 0 <==> from > -size
    ensures -size < from < 0 ==> JavaDiv(from, size) == 0
    ensures from >= 0 ==> JavaDiv(from, size) * size == PageOffset(from, size)
  {
  }

  /** `PageRequest.of(from / size, size)` starts at row `(from / size) * size`. */
  function PageOffset(from: nat, size: nat): (offset: nat)
    requires size > 0
    ensures offset % size == 0
    ensures offset <= from < offset + size
  {
    PageStartIsBoundary(from / size, size);
    (from / size) * size
  }

  /** The first row of page `from / size`, for any `from` that gives a valid page index. */
  function RequestOffset(from: int, size: int): (offset: nat)
    requires size > 0 && from > -size
    ensures offset == JavaDiv(from, size) * size
    ensures offset % size == 0
    ensures offset <= from < offset + size || (from < 0 && offset == 0)
  {
    PageIndexOfOffset(from, size);
    if from >= 0 then PageOffset(from, size) else 0
  }

  /** The first row of page `page` is a multiple of the page size. */
  lemma PageStartIsBoundary(page: nat, size: nat)
    requires size > 0
    ensures (page * size) % size == 0
  {
    var x := page * size;
    var k := page - x / size;
    assert k * size == x % size;
  }

  predicate Distinct<T(==)>(s: seq<T>) {
    forall i, j :: 0 <= i < j < |s| ==> s[i] != s[j]
  }

  /** `page` is a page of rows drawn from `matches`, starting at row `offset`. */
  predicate IsPage(page: seq<int>, matches: set<int>, offset: nat, size: nat) {
    && |page| == PageLength(|matches|, offset, size)
    && (forall i :: 0 <= i < |page| ==> page[i] in matches)
    && Distinct(page)
  }

  /** Reads one page: skips `offset` rows, then reads up to `size` more. */
  method TakePage(matches: set<int>, offset: nat, size: nat) returns (page: seq<int>)
    ensures IsPage(page, matches, offset, size)
  {
    var rest := matches;
    var skipped := 0;
    while skipped < offset && rest != {}
      invariant rest <= matches
      invariant skipped <= offset
      invariant |rest| + skipped == |matches|
    {
      ghost var some := Pick(rest);
      var k :| k in rest;
      rest := rest - {k};
      skipped := skipped + 1;
    }
    page := [];
    while |page| < size && rest != {}
      invariant rest <= matches
      invariant |page| <= size
      invariant |rest| + |page| + skipped == |matches|
      invariant forall i :: 0 <= i < |page| ==> page[i] in matches && page[i] !in rest
      invariant Distinct(page)
    {
      ghost var some := Pick(rest);
      var k :| k in rest;
      page := page + [k];
      rest := rest - {k};
    }
  }
}
