/** Fixed-size pages over the filtered listing. Pages are numbered from 1 and
    hold `PerPage` rows each; the last page holds the remainder. */
module Pagination {

  const PerPage: nat := 10

  /** The page-count metadata: `ceil(total / PerPage)`, and 0 for no rows. */
  function TotalPages(total: nat): (pages: nat)
    ensures pages * PerPage >= total
    ensures pages > 0 ==> (pages - 1) * PerPage < total
    ensures pages == 0 <==> total == 0
  {
    (total + PerPage - 1) / PerPage
  }

  /** The pages the paginator answers with rows: page 1 (possibly empty), and
      every later page that starts before the end of the rows. */
  predicate Served(page: int, total: nat)
  {
    page == 1 || (2 <= page && (page - 1) * PerPage < total)
  }

  lemma ServedIsInRange(page: int, total: nat)
    ensures Served(page, total) <==> 1 <= page && (page == 1 || page <= TotalPages(total))
  {
  }

  /** The rows shown on page `page`. */
  function PageItems<T>(xs: seq<T>, page: int): (r: seq<T>)
    requires page >= 1
    ensures |r| <= PerPage
    ensures |r| == if (page - 1) * PerPage >= |xs| then 0
                   else if |xs| - (page - 1) * PerPage < PerPage then |xs| - (page - 1) * PerPage
                   else PerPage
    ensures forall k :: 0 <= k < |r| ==> r[k] == xs[(page - 1) * PerPage + k]
  {
    var start := (page - 1) * PerPage;
    if start >= |xs| then []
    else if start + PerPage <= |xs| then xs[start..start + PerPage]
    else xs[start..]
  }

  /** Pages `page`, `page + 1`, ... up to the last non-empty one, read in order. */
  function PagesFrom<T>(xs: seq<T>, page: nat): seq<T>
    requires page >= 1
    decreases |xs| - (page - 1) * PerPage
  {
    if (page - 1) * PerPage >= |xs| then []
    else PageItems(xs, page) + PagesFrom(xs, page + 1)
  }

  /** Reading the pages from `page` on yields the rows from that page's first
      row on: consecutive pages neither overlap nor skip a row. */
  lemma {:induction false} PagesFromIsSuffix<T>(xs: seq<T>, page: nat)
    requires page >= 1
    ensures (page - 1) * PerPage <= |xs| ==> PagesFrom(xs, page) == xs[(page - 1) * PerPage..]
    decreases |xs| - (page - 1) * PerPage
  {
    var start := (page - 1) * PerPage;
    if start < |xs| {
      PagesFromIsSuffix(xs, page + 1);
      var here := PageItems(xs, page);
      if start + PerPage <= |xs| {
        assert here == xs[start..start + PerPage];
        assert page * PerPage == start + PerPage;
        assert xs[start..] == xs[start..start + PerPage] + xs[start + PerPage..];
      } else {
        assert here == xs[start..];
        assert PagesFrom(xs, page + 1) == [];
      }
    }
  }

  /** The pages 1 .. TotalPages partition the rows: read in order they give back
      every row exactly once, and there are exactly TotalPages non-empty pages. */
  lemma PagesPartition<T>(xs: seq<T>)
    ensures PagesFrom(xs, 1) == xs
    ensures forall p :: 1 <= p <= TotalPages(|xs|) ==> |PageItems(xs, p)| > 0
    ensures forall p :: p > TotalPages(|xs|) ==> PageItems(xs, p) == []
  {
    PagesFromIsSuffix(xs, 1);
    assert xs[0..] == xs;
  }
}
