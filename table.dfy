/**
 * The movements table: a free-text search over the filtered movements, then
 * pagination. The component's state (`activePage`, `pageSize`, `search`) is a
 * class whose setters change it; what it shows is computed from that state
 * and the store's filtered movements by pure functions.
 */
module Table {
  import opened Wrappers
  import opened Seqs
  import opened Text
  import opened Transactions

  /** The sizes the page-size selector offers. */
  const PageSizes: seq<int> := [25, 50, 100, 200]

  /** The size used before any choice, and when the selector is cleared. */
  const DefaultPageSize: int := 50

  /** The lower-cased query occurs in the concept, the category or the account. */
  predicate MatchesQuery(t: Transaction, query: string) {
    Contains(ToLower(t.concepto), query)
    || Contains(ToLower(t.categoria), query)
    || Contains(ToLower(t.cuenta), query)
  }

  function QueryTest(query: string): Transaction -> bool {
    t => MatchesQuery(t, query)
  }

  /** `searchedTransactions`: all of them for an empty search, else those matching it. */
  function Searched(ts: seq<Transaction>, search: string): seq<Transaction> {
    if search == "" then ts else Filter(ts, QueryTest(ToLower(search)))
  }

  /** An empty search shows the filtered movements exactly as they are. */
  lemma SearchEmpty(ts: seq<Transaction>)
    ensures Searched(ts, "") == ts
  {
  }

  /**
   * The shortcut for an empty search agrees with the filter: an empty query
   * occurs in every text, so searching is always a filter by the query.
   */
  lemma SearchIsFilter(ts: seq<Transaction>, search: string)
    ensures Searched(ts, search) == Filter(ts, QueryTest(ToLower(search)))
  {
    if search == "" {
      forall i | 0 <= i < |ts| ensures QueryTest(ToLower(search))(ts[i]) {
        EmptyContained(ToLower(ts[i].concepto));
      }
      FilterAll(ts, QueryTest(ToLower(search)));
    }
  }

  /** A movement is shown by the search exactly when it is there and matches the lower-cased query. */
  lemma SearchMembers(ts: seq<Transaction>, search: string, t: Transaction)
    ensures t in Searched(ts, search) <==> t in ts && MatchesQuery(t, ToLower(search))
  {
    SearchIsFilter(ts, search);
  }

  /** The search keeps the movements' order: the result is a subsequence of its input. */
  lemma SearchKeepsOrder(ts: seq<Transaction>, search: string)
    ensures IsSubseq(Searched(ts, search), ts)
  {
    SearchIsFilter(ts, search);
    FilterIsSubseq(ts, QueryTest(ToLower(search)));
  }

  /** The search ignores the case of the query. */
  lemma SearchIgnoresCase(ts: seq<Transaction>, search: string)
    ensures Searched(ts, ToLower(search)) == Searched(ts, search)
  {
    SearchIsFilter(ts, search);
    SearchIsFilter(ts, ToLower(search));
    ToLowerIdempotent(search);
  }

  /** `Math.ceil(n / pageSize)`: the fewest pages of `size` rows that hold `n` rows. */
  function TotalPages(n: nat, size: int): (r: nat)
    requires size > 0
    ensures n <= r * size
    ensures r == 0 || (r - 1) * size < n
  {
    (n + size - 1) / size
  }

  /** No row means no page. */
  lemma NoRowsNoPages(size: int)
    requires size > 0
    ensures TotalPages(0, size) == 0
  {
  }

  /** JavaScript's `slice(start, end)` for non-negative bounds: both are clamped to the length. */
  function Slice<T>(s: seq<T>, start: nat, end: nat): (r: seq<T>)
    ensures |r| <= |s|
  {
    var lo := if start < |s| then start else |s|;
    var hi := if end < |s| then end else |s|;
    if lo <= hi then s[lo..hi] else []
  }

  /** `paginatedTransactions`: the rows of page `page` (counted from 1). */
  function Page<T>(s: seq<T>, page: int, size: int): seq<T>
    requires page >= 1 && size > 0
  {
    Slice(s, (page - 1) * size, (page - 1) * size + size)
  }

  /** A page is the slice from `(page - 1) * size` up to `page * size` or the end, whichever comes first. */
  lemma PageSlice<T>(s: seq<T>, page: int, size: int)
    requires page >= 1 && size > 0
    requires (page - 1) * size <= |s|
    ensures Page(s, page, size) == s[(page - 1) * size .. if page * size < |s| then page * size else |s|]
  {
  }

  /** No page holds more than the page size. */
  lemma PageBound<T>(s: seq<T>, page: int, size: int)
    requires page >= 1 && size > 0
    ensures |Page(s, page, size)| <= size
  {
  }

  /** A page beyond the last one is empty. */
  lemma PageBeyondLast<T>(s: seq<T>, page: int, size: int)
    requires size > 0 && page > TotalPages(|s|, size)
    ensures Page(s, page, size) == []
  {
    var r := TotalPages(|s|, size);
    MulMonotone(r, page - 1, size);
    assert Page(s, page, size) == s[|s|..|s|];
  }

  lemma MulMonotone(a: int, b: int, c: int)
    requires 0 <= a <= b && c > 0
    ensures a * c <= b * c
  {
    assert b * c == a * c + (b - a) * c;
  }

  /** Pages 1 to `k`, one after another. */
  function Pages<T>(s: seq<T>, k: nat, size: int): seq<T>
    requires size > 0
  {
    if k == 0 then [] else Pages(s, k - 1, size) + Page(s, k, size)
  }

  /** The first `k` pages are the first `k * size` rows (or all of them). */
  lemma {:induction false} PagesPrefix<T>(s: seq<T>, k: nat, size: int)
    requires size > 0
    ensures Pages(s, k, size) == s[..if k * size < |s| then k * size else |s|]
  {
    if k > 0 {
      PagesPrefix(s, k - 1, size);
      var lo := if (k - 1) * size < |s| then (k - 1) * size else |s|;
      var hi := if k * size < |s| then k * size else |s|;
      assert Page(s, k, size) == s[lo..hi];
      assert s[..lo] + s[lo..hi] == s[..hi];
    }
  }

  /** Pages 1 to `totalPages`, one after another, are the whole searched list. */
  lemma PagesCoverAll<T>(s: seq<T>, size: int)
    requires size > 0
    ensures Pages(s, TotalPages(|s|, size), size) == s
  {
    PagesPrefix(s, TotalPages(|s|, size), size);
  }

  /** `totalPages > 1`: the pagination control is rendered. */
  predicate ShowsPagination(n: nat, size: int)
    requires size > 0
  {
    TotalPages(n, size) > 1
  }

  /** The control appears exactly when the rows do not fit on one page. */
  lemma PaginationWhenOverflowing(n: nat, size: int)
    requires size > 0
    ensures ShowsPagination(n, size) <==> n > size
  {
    var r := TotalPages(n, size);
    if r <= 1 {
      MulMonotone(r, 1, size);
    } else {
      MulMonotone(1, r - 1, size);
    }
  }

  /**
   * Neither a new search nor new filters move the active page back, so once
   * the rows fit on one page a later active page shows an empty table and no
   * control to leave it.
   */
  lemma StrandedPage<T>(s: seq<T>, page: int, size: int)
    requires size > 0 && |s| <= size && page >= 2
    ensures Page(s, page, size) == [] && !ShowsPagination(|s|, size)
  {
    assert (page - 1) * size >= size by {
      assert (page - 1) * size == size + (page - 2) * size;
    }
    PaginationWhenOverflowing(|s|, size);
  }

  /** The component's state. */
  class TransactionsTable {
    var activePage: int
    var pageSize: int
    var search: string

    /** The page is counted from 1 and the size is one the selector offers. */
    ghost predicate Valid()
      reads this
    {
      activePage >= 1 && pageSize in PageSizes
    }

    /** First page, 50 rows a page, no search. */
    constructor()
      ensures Valid()
      ensures activePage == 1 && pageSize == DefaultPageSize && search == ""
    {
      activePage := 1;
      pageSize := DefaultPageSize;
      search := "";
    }

    /** Typing in the search box changes the query only; the page is kept. */
    method SetSearch(text: string)
      modifies this
      requires Valid()
      ensures Valid()
      ensures search == text
      ensures activePage == old(activePage) && pageSize == old(pageSize)
    {
      search := text;
    }

    /** The pagination control moves to one of its pages. */
    method SetActivePage(page: int)
      modifies this
      requires Valid() && page >= 1
      ensures Valid()
      ensures activePage == page
      ensures pageSize == old(pageSize) && search == old(search)
    {
      activePage := page;
    }

    /**
     * The selector's change handler: `parseInt(value || '50')`, then back to
     * the first page. `None` is a cleared selector.
     */
    method SetPageSize(value: Option<int>)
      modifies this
      requires Valid()
      requires value.Some? ==> value.value in PageSizes
      ensures Valid()
      ensures pageSize == (if value.Some? then value.value else DefaultPageSize)
      ensures activePage == 1
      ensures search == old(search)
    {
      pageSize := if value.Some? then value.value else DefaultPageSize;
      activePage := 1;
    }

    /**
     * What the table shows for the store's filtered movements: the count in
     * the title, the rows of the active page, the number of pages and whether
     * the pagination control is there.
     */
    method View(filtered: seq<Transaction>) returns (count: nat, rows: seq<Transaction>, total: nat, control: bool)
      requires Valid()
      ensures count == |Searched(filtered, search)|
      ensures rows == Page(Searched(filtered, search), activePage, pageSize)
      ensures |rows| <= pageSize
      ensures forall t | t in rows :: t in filtered && MatchesQuery(t, ToLower(search))
      ensures count <= total * pageSize && (total == 0 || (total - 1) * pageSize < count)
      ensures control <==> count > pageSize
    {
      var searched := Searched(filtered, search);
      count := |searched|;
      total := TotalPages(count, pageSize);
      rows := Page(searched, activePage, pageSize);
      control := total > 1;
      PageBound(searched, activePage, pageSize);
      forall t | t in rows ensures t in filtered && MatchesQuery(t, ToLower(search)) {
        SearchMembers(filtered, search, t);
      }
      PaginationWhenOverflowing(count, pageSize);
    }
  }
}
