/**
 * Offset pagination as the two list route handlers do it: a page number and a page
 * size become `offset = (page - 1) * limit`, and the store returns the `take`
 * records that follow the first `skip` records of the ordered matches.
 */
module Paging {

  function Min(a: int, b: int): int {
    if a <= b then a else b
  }

  /** `(page - 1) * limit`, the number of records that precede the requested page. */
  function Offset(page: int, limit: int): int {
    (page - 1) * limit
  }

  /** From page 1 on, the offset is a non-negative whole number of pages. */
  lemma OffsetIsWholePages(page: int, limit: int)
    requires page >= 1 && limit >= 0
    ensures Offset(page, limit) >= 0
    ensures limit > 0 ==> Offset(page, limit) % limit == 0 && Offset(page, limit) / limit == page - 1
  {
    var k := page - 1;
    assert k >= 0;
    assert Offset(page, limit) == k * limit;
    if limit > 0 {
      LemmaMulDiv(k, limit);
    }
  }

  lemma LemmaMulDiv(k: nat, d: int)
    requires d > 0
    ensures (k * d) % d == 0 && (k * d) / d == k
  {
    var q := (k * d) / d;
    var r := (k * d) % d;
    assert k * d == q * d + r && 0 <= r < d;
    assert (k - q) * d == r;
    MulAwayFromZero(k - q, d);
  }

  lemma MulAwayFromZero(m: int, d: int)
    requires d > 0
    ensures m >= 1 ==> m * d >= d
    ensures m <= -1 ==> m * d <= -d
  {
    if m >= 1 {
      assert m * d == (m - 1) * d + d;
    } else if m <= -1 {
      assert m * d == (m + 1) * d - d;
    }
  }

  /** Consecutive pages start exactly one page size apart. */
  lemma OffsetNextPage(page: int, limit: int)
    ensures Offset(page + 1, limit) == Offset(page, limit) + limit
  {
    assert (page + 1 - 1) * limit == (page - 1) * limit + limit;
  }

  /**
   * The store's `skip`/`take` on a sequence already in result order: at most
   * `take` records, all taken in order from position `skip` on.
   */
  function Window<T>(xs: seq<T>, skip: nat, take: nat): (r: seq<T>)
    ensures |r| == Min(take, if skip <= |xs| then |xs| - skip else 0)
    ensures forall i :: 0 <= i < |r| ==> r[i] == xs[skip + i]
  {
    xs[Min(skip, |xs|)..Min(skip + take, |xs|)]
  }

  /** The first `k` pages of size `limit`, one after the other. */
  function Pages<T>(xs: seq<T>, limit: nat, k: nat): seq<T> {
    if k == 0 then [] else Pages(xs, limit, k - 1) + Window(xs, Offset(k, limit), limit)
  }

  /** Pages neither overlap nor leave gaps: the first `k` pages are a prefix of the matches. */
  lemma {:induction false} PagesArePrefix<T>(xs: seq<T>, limit: nat, k: nat)
    ensures Pages(xs, limit, k) == xs[..Min(k * limit, |xs|)]
  {
    if k > 0 {
      PagesArePrefix(xs, limit, k - 1);
      var before := (k - 1) * limit;
      var upTo := k * limit;
      assert upTo == before + limit && before >= 0;
      assert Offset(k, limit) == before;
      var lo, hi := Min(before, |xs|), Min(upTo, |xs|);
      assert Window(xs, before, limit) == xs[lo..hi];
      assert xs[..lo] + xs[lo..hi] == xs[..hi];
    }
  }
}
