/** The paging arithmetic of a Spring `Page`: the page count, the slice a
    page holds, and the `isLast` flag the account service computes. */
module Paging {

  /** `Page.getTotalPages()` for `total` elements and a page size of at least
      one: the smallest page count that holds every element. */
  function TotalPages(total: nat, size: nat): (p: nat)
    requires size >= 1
    ensures p * size >= total
    ensures p == 0 || (p - 1) * size < total
  {
    var q := (total + size - 1) / size;
    assert q * size + (total + size - 1) % size == total + size - 1;
    q
  }

  /** The flag `pageNo >= totalPages - 1`. */
  function IsLast(pageNo: int, totalPages: int): bool
  {
    pageNo >= totalPages - 1
  }

  lemma MulMono(a: nat, b: nat, s: nat)
    requires a <= b
    ensures a * s <= b * s
  {
  }

  /** A page is flagged last exactly when no element lies beyond it. */
  lemma IsLastIffNothingFollows(pageNo: nat, size: nat, total: nat)
    requires size >= 1
    ensures IsLast(pageNo, TotalPages(total, size)) <==> (pageNo + 1) * size >= total
  {
    var p := TotalPages(total, size);
    if pageNo + 1 >= p {
      MulMono(p, pageNo + 1, size);
    } else {
      MulMono(pageNo + 1, p - 1, size);
    }
  }

  /** The elements of page `pageNo` of `s` with `size` elements per page. */
  function PageOf<T>(s: seq<T>, pageNo: nat, size: nat): (p: seq<T>)
    requires size >= 1
    ensures |p| <= size
    ensures pageNo * size >= |s| ==> p == []
    ensures pageNo * size < |s| ==>
              |p| == (if |s| - pageNo * size < size then |s| - pageNo * size else size)
    ensures forall i | 0 <= i < |p| :: pageNo * size + i < |s| && p[i] == s[pageNo * size + i]
  {
    var start := pageNo * size;
    if start >= |s| then []
    else if |s| - start < size then s[start..]
    else s[start..start + size]
  }

  /** The flagged-last page is the one that ends the sequence, or one beyond it. */
  lemma {:induction false} LastPageReachesTheEnd<T>(s: seq<T>, pageNo: nat, size: nat)
    requires size >= 1
    ensures IsLast(pageNo, TotalPages(|s|, size)) <==> pageNo * size + |PageOf(s, pageNo, size)| >= |s|
  {
    IsLastIffNothingFollows(pageNo, size, |s|);
    assert (pageNo + 1) * size == pageNo * size + size;
  }
}
