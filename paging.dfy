/**
 * The listing pages both admin and company screens show: LINQ's
 * Skip((pageNumber - 1) * pageSize).Take(pageSize) over the filtered list.
 */
module Paging {

  /** Enumerable.Skip: drops the first n elements (none when n <= 0, all when n >= |s|). */
  function Skip<T>(s: seq<T>, n: int): (r: seq<T>)
    ensures n <= 0 ==> r == s
    ensures 0 <= n <= |s| ==> r == s[n..]
    ensures n >= |s| ==> r == []
  {
    if n <= 0 then s else if n >= |s| then [] else s[n..]
  }

  /** Enumerable.Take: keeps at most the first n elements. */
  function Take<T>(s: seq<T>, n: int): (r: seq<T>)
    ensures n <= 0 ==> r == []
    ensures 0 <= n <= |s| ==> r == s[..n]
    ensures n >= |s| ==> r == s
  {
    if n <= 0 then [] else if n >= |s| then s else s[..n]
  }

  /** Index in the full list of the first element of page pageNumber (pages count from 1). */
  function PageStart(pageNumber: int, pageSize: nat): int {
    (pageNumber - 1) * pageSize
  }

  /**
   * Page pageNumber of s: a contiguous run of s, in s's order, starting at
   * (pageNumber - 1) * pageSize and no longer than pageSize.
   */
  function Page<T>(s: seq<T>, pageNumber: int, pageSize: nat): (r: seq<T>)
    requires pageNumber >= 1
    ensures |r| <= pageSize
    ensures PageStart(pageNumber, pageSize) >= |s| ==> r == []
    ensures PageStart(pageNumber, pageSize) < |s| ==>
              |r| == if |s| - PageStart(pageNumber, pageSize) < pageSize then |s| - PageStart(pageNumber, pageSize) else pageSize
    ensures forall k :: 0 <= k < |r| ==>
              PageStart(pageNumber, pageSize) + k < |s| && r[k] == s[PageStart(pageNumber, pageSize) + k]
  {
    assert PageStart(pageNumber, pageSize) >= 0 by {
      assert pageNumber - 1 >= 0;
    }
    Take(Skip(s, PageStart(pageNumber, pageSize)), pageSize)
  }

  /** The first `pages` pages, one after another. */
  function FirstPages<T>(s: seq<T>, pages: nat, pageSize: nat): seq<T> {
    if pages == 0 then [] else FirstPages(s, pages - 1, pageSize) + Page(s, pages, pageSize)
  }

  /** The smaller of a and b. */
  function Min(a: int, b: int): int {
    if a <= b then a else b
  }

  /** Page p starts where the first p - 1 pages end. */
  lemma PageEnd(pages: nat, pageSize: nat)
    requires pages >= 1
    ensures pages * pageSize == PageStart(pages, pageSize) + pageSize
    ensures PageStart(pages, pageSize) == (pages - 1) * pageSize >= 0
  {
  }

  lemma SliceJoin<T>(s: seq<T>, i: int, j: int)
    requires 0 <= i <= j <= |s|
    ensures s[..i] + s[i..j] == s[..j]
  {
  }

  /** Pages neither overlap nor leave gaps: the first n pages are the list cut off after n * pageSize elements. */
  lemma {:induction false} FirstPagesArePrefix<T>(s: seq<T>, pages: nat, pageSize: nat)
    ensures FirstPages(s, pages, pageSize) == s[..Min(pages * pageSize, |s|)]
  {
    if pages > 0 {
      FirstPagesArePrefix(s, pages - 1, pageSize);
      PageEnd(pages, pageSize);
      var start := PageStart(pages, pageSize);
      var stop := Min(pages * pageSize, |s|);
      var prev := FirstPages(s, pages - 1, pageSize);
      assert prev == s[..Min(start, |s|)];
      var p := Page(s, pages, pageSize);
      if start < |s| {
        assert |p| == stop - start;
        assert p == s[start..stop];
        assert prev == s[..start];
        SliceJoin(s, start, stop);
      } else {
        assert p == [];
        assert stop == |s|;
      }
    }
  }

  /** Every element of the list is on page i / pageSize + 1, at position i % pageSize. */
  lemma ElementOnItsPage<T>(s: seq<T>, pageSize: nat, i: int)
    requires pageSize >= 1 && 0 <= i < |s|
    ensures i % pageSize < |Page(s, i / pageSize + 1, pageSize)|
    ensures Page(s, i / pageSize + 1, pageSize)[i % pageSize] == s[i]
  {
    var q, m := i / pageSize, i % pageSize;
    assert q * pageSize + m == i;
    assert PageStart(q + 1, pageSize) == q * pageSize;
  }
}
