/**
 * Client-side pagination of the permissions page
 * (`src/app/dashboard/permissions/page.tsx`): ten rows a page, a slice
 * per page, numbered page links and clamped previous/next buttons.
 */
module Pagination {
  const ItemsPerPage: nat := 10

  /** `Math.ceil(n / itemsPerPage)` for a list of `n` rows. */
  function TotalPages(n: nat): (pages: nat)
    ensures pages * ItemsPerPage >= n
    ensures pages > 0 ==> (pages - 1) * ItemsPerPage < n
  {
    (n + ItemsPerPage - 1) / ItemsPerPage
  }

  /** The ceiling is the only count that covers `n` rows without an empty last page. */
  lemma TotalPagesIsCeiling(n: nat, k: nat)
    requires k * ItemsPerPage >= n
    requires k > 0 ==> (k - 1) * ItemsPerPage < n
    ensures k == TotalPages(n)
  {
    var t := TotalPages(n);
    if k < t {
      assert false;
    } else if k > t {
      assert false;
    }
  }

  /** How `Array.prototype.slice` resolves an index: negative counts from the end, then clamp. */
  function SliceIndex(i: int, len: nat): (c: nat)
    ensures c <= len
    ensures 0 <= i <= len ==> c == i
    ensures i > len ==> c == len
    ensures i < 0 ==> c == if len + i < 0 then 0 else len + i
  {
    if i < 0 then (if len + i < 0 then 0 else len + i)
    else if i > len then len
    else i
  }

  /** `xs.slice(start, end)` */
  function Slice<T>(xs: seq<T>, start: int, end: int): (r: seq<T>)
    ensures |r| <= |xs|
    ensures SliceIndex(start, |xs|) + |r| <= |xs| && r == xs[SliceIndex(start, |xs|)..][..|r|]
  {
    var s := SliceIndex(start, |xs|);
    var e := SliceIndex(end, |xs|);
    if s < e then xs[s..e] else []
  }

  function Min(a: int, b: int): int { if a <= b then a else b }
  function Max(a: int, b: int): int { if a >= b then a else b }

  /**
   * `permissions.slice(startIndex, endIndex)` for the current page: whatever
   * the page number, negative ones included, at most ten consecutive rows.
   */
  function PageItems<T>(xs: seq<T>, page: int): (r: seq<T>)
    ensures |r| <= ItemsPerPage
    ensures exists lo :: 0 <= lo <= |xs| - |r| && r == xs[lo..][..|r|]
  {
    var startIndex := (page - 1) * ItemsPerPage;
    var endIndex := startIndex + ItemsPerPage;
    Slice(xs, startIndex, endIndex)
  }

  /** Page `p` (from 1) shows rows `[(p-1)*10, min(n, p*10))`: at most ten. */
  lemma PageWindow<T>(xs: seq<T>, page: int)
    requires page >= 1
    ensures var lo := Min(|xs|, (page - 1) * ItemsPerPage);
      var hi := Min(|xs|, page * ItemsPerPage);
      PageItems(xs, page) == xs[lo..hi] && |PageItems(xs, page)| <= ItemsPerPage
  {
  }

  /** A page within `1..totalPages` shows between one and ten rows. */
  lemma PageNotEmpty<T>(xs: seq<T>, page: int)
    requires 1 <= page <= TotalPages(|xs|)
    ensures 1 <= |PageItems(xs, page)| <= ItemsPerPage
  {
    PageWindow(xs, page);
    assert (page - 1) * ItemsPerPage <= (TotalPages(|xs|) - 1) * ItemsPerPage;
  }

  /** Pages past the last one show nothing. */
  lemma PastTheEnd<T>(xs: seq<T>, page: int)
    requires page > TotalPages(|xs|)
    ensures PageItems(xs, page) == []
  {
    assert (page - 1) * ItemsPerPage >= TotalPages(|xs|) * ItemsPerPage;
  }

  /** Pages `1..k` read in order. */
  function FirstPages<T>(xs: seq<T>, k: nat): seq<T>
    decreases k
  {
    if k == 0 then [] else FirstPages(xs, k - 1) + PageItems(xs, k)
  }

  /** The first `k` pages are exactly the first `min(n, 10k)` rows. */
  lemma {:induction false} FirstPagesArePrefix<T>(xs: seq<T>, k: nat)
    ensures FirstPages(xs, k) == xs[..Min(|xs|, k * ItemsPerPage)]
    decreases k
  {
    if k > 0 {
      FirstPagesArePrefix(xs, k - 1);
      PageWindow(xs, k);
      var a := Min(|xs|, (k - 1) * ItemsPerPage);
      var b := Min(|xs|, k * ItemsPerPage);
      assert xs[..a] + xs[a..b] == xs[..b];
    }
  }

  /** Pages `1..totalPages` concatenate to the whole list. */
  lemma PagesCoverList<T>(xs: seq<T>)
    ensures FirstPages(xs, TotalPages(|xs|)) == xs
  {
    FirstPagesArePrefix(xs, TotalPages(|xs|));
  }

  /** Distinct pages show disjoint index ranges, in page order. */
  lemma PagesDisjoint(n: nat, p: int, q: int)
    requires 1 <= p < q
    ensures Min(n, p * ItemsPerPage) <= Min(n, (q - 1) * ItemsPerPage)
  {
    assert p * ItemsPerPage <= (q - 1) * ItemsPerPage;
  }

  /** The Previous button: `setCurrentPage(p => Math.max(1, p - 1))`. */
  function Previous(page: int): (p: int)
    ensures p >= 1
    ensures page > 1 ==> p == page - 1
    ensures page <= 1 ==> p == 1
  {
    Max(1, page - 1)
  }

  /** The Next button: `setCurrentPage(p => Math.min(totalPages, p + 1))`. */
  function Next(page: int, totalPages: nat): (p: int)
    ensures p <= totalPages
    ensures page < totalPages ==> p == page + 1
    ensures page >= totalPages ==> p == totalPages
  {
    Min(totalPages, page + 1)
  }

  /**
   * Previous is disabled on page 1 and Next on the last page; a click on
   * either there would leave the page where it is, so whether the button
   * swallows the click makes no difference.
   */
  lemma DisabledClicksAreNoOps(totalPages: nat)
    ensures Previous(1) == 1
    ensures Next(totalPages, totalPages) == totalPages
  {
  }

  /** With no rows, Next from the first page moves to page 0, which shows nothing. */
  lemma NextOnEmptyList<T>(xs: seq<T>)
    requires xs == []
    ensures Next(1, TotalPages(|xs|)) == 0
    ensures PageItems(xs, 0) == []
  {
  }

  /** The numbered links: `Array.from({ length: totalPages }, (_, i) => i + 1)`. */
  function PageLinks(totalPages: nat): (links: seq<int>)
    ensures |links| == totalPages
    ensures forall i :: 0 <= i < totalPages ==> links[i] == i + 1
  {
    seq(totalPages, i => i + 1)
  }

  /** The links are exactly the pages `1..totalPages`. */
  lemma PageLinksExact(totalPages: nat, page: int)
    ensures page in PageLinks(totalPages) <==> 1 <= page <= totalPages
  {
    if 1 <= page <= totalPages {
      assert PageLinks(totalPages)[page - 1] == page;
    }
  }

  /** The pages the buttons and links can reach from page 1. */
  predicate Reachable(page: int, totalPages: nat) {
    page == 1 || 1 <= page <= totalPages || (page == 0 && totalPages == 0)
  }

  /** What a click does to the current page. */
  datatype Click = PreviousClick | NextClick | LinkClick(target: int)

  function OnClick(page: int, totalPages: nat, click: Click): int
    requires click.LinkClick? ==> click.target in PageLinks(totalPages)
  {
    match click
    case PreviousClick => Previous(page)
    case NextClick => Next(page, totalPages)
    case LinkClick(target) => target
  }

  /** Every click keeps the current page reachable. */
  lemma ClickKeepsReachable(page: int, totalPages: nat, click: Click)
    requires Reachable(page, totalPages)
    requires click.LinkClick? ==> click.target in PageLinks(totalPages)
    ensures Reachable(OnClick(page, totalPages, click), totalPages)
  {
    if click.LinkClick? {
      PageLinksExact(totalPages, click.target);
    }
  }

  /** On a reachable page the rows shown are a window of at most ten consecutive rows. */
  lemma ReachablePageIsWindow<T>(xs: seq<T>, page: int)
    requires Reachable(page, TotalPages(|xs|))
    ensures |PageItems(xs, page)| <= ItemsPerPage
    ensures page >= 1 ==> PageItems(xs, page) == xs[Min(|xs|, (page - 1) * ItemsPerPage)..Min(|xs|, page * ItemsPerPage)]
    ensures page == 0 ==> PageItems(xs, page) == []
  {
    if page >= 1 {
      PageWindow(xs, page);
    }
  }
}
