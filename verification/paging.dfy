/**
  The fixed-size pages every listing view shows: `Paginator(list, 10)` and
  the slice it returns for a page number inside the valid range.
 */
module Paging {

  /** Posts per page in every listing view. */
  const PerPage := 10

  /** `Paginator.num_pages`: enough pages to hold `count` items, and at least one. */
  function NumPages(count: nat): (n: nat)
    ensures n >= 1
    ensures count == 0 ==> n == 1
    ensures count <= n * PerPage
    ensures count > 0 ==> (n - 1) * PerPage < count
  {
    if count == 0 then 1 else (count + PerPage - 1) / PerPage
  }

  /** `Paginator.page(number).object_list` for a page number in range. */
  function Page<T>(xs: seq<T>, number: nat): (r: seq<T>)
    requires 1 <= number <= NumPages(|xs|)
    ensures |r| <= PerPage
    ensures number < NumPages(|xs|) ==> |r| == PerPage
    ensures number == NumPages(|xs|) ==> (number - 1) * PerPage + |r| == |xs|
    ensures forall i :: 0 <= i < |r| ==> r[i] == xs[(number - 1) * PerPage + i]
  {
    var bottom := (number - 1) * PerPage;
    var top := if bottom + PerPage >= |xs| then |xs| else bottom + PerPage;
    xs[bottom..top]
  }

  /** Pages 1 to `k` laid end to end. */
  function FirstPages<T>(xs: seq<T>, k: nat): seq<T>
    requires k <= NumPages(|xs|)
  {
    if k == 0 then [] else FirstPages(xs, k - 1) + Page(xs, k)
  }

  function Min(a: int, b: int): (m: int)
    ensures m <= a && m <= b && (m == a || m == b)
  {
    if a <= b then a else b
  }

  /** The first `k` pages are the first `k * PerPage` items, or all of them. */
  lemma {:induction false} FirstPagesArePrefix<T>(xs: seq<T>, k: nat)
    requires k <= NumPages(|xs|)
    ensures FirstPages(xs, k) == xs[..Min(k * PerPage, |xs|)]
  {
    if k > 0 {
      FirstPagesArePrefix(xs, k - 1);
      var bottom := (k - 1) * PerPage;
      var top := Min(k * PerPage, |xs|);
      assert bottom <= |xs|;
      assert Min(bottom, |xs|) == bottom;
      var p := Page(xs, k);
      assert bottom + |p| == top;
      assert p == xs[bottom..top];
      assert xs[..bottom] + xs[bottom..top] == xs[..top];
    }
  }

  /** Reading every page in turn yields the whole listing, each item once and in order. */
  lemma PagesCoverListing<T>(xs: seq<T>)
    ensures FirstPages(xs, NumPages(|xs|)) == xs
  {
    FirstPagesArePrefix(xs, NumPages(|xs|));
  }

  /** The first page holds the first ten items, or every item of a shorter listing. */
  lemma FirstPageSize<T>(xs: seq<T>)
    ensures Page(xs, 1) == xs[..Min(PerPage, |xs|)]
    ensures |Page(xs, 1)| == Min(PerPage, |xs|)
  {
    FirstPagesArePrefix(xs, 1);
  }

  /** Thirteen items: ten on the first page, three on the second, and no third page. */
  lemma ThirteenItems<T>(xs: seq<T>)
    requires |xs| == 13
    ensures NumPages(|xs|) == 2
    ensures |Page(xs, 1)| == 10 && |Page(xs, 2)| == 3
  {
  }
}
