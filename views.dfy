/** The arithmetic of the request handlers (views.py): the paging links of
    the `view` page and the name of a design document taken from its id. */
module Views {
  import opened Wrappers

  /** The exceptions the modelled lines can raise. */
  datatype ViewError = ZeroDivisionError | IndexError

  // ---------------------------------------------------------------------
  // Integer division as Python 2 computes it
  // ---------------------------------------------------------------------

  /** `a / b` on Python 2 integers: the floor of the quotient. */
  function FloorDiv(a: int, b: int): (q: int)
    requires b != 0
    ensures b > 0 ==> q * b <= a < q * b + b
    ensures b < 0 ==> q * b + b < a <= q * b
  {
    if b > 0 then a / b else (-a) / (-b)
  }

  /** `int(math.ceil(a / float(b)))`, with the quotient computed exactly. */
  function CeilDiv(a: int, b: int): (q: int)
    requires b != 0
    ensures b > 0 ==> q * b - b < a <= q * b
    ensures b < 0 ==> q * b <= a < q * b - b
  {
    -FloorDiv(-a, b)
  }

  // ---------------------------------------------------------------------
  // Pagination of a view (views.py:99-133)
  // ---------------------------------------------------------------------

  /** The values the `view` page shows for paging: the current page number,
      the number of pages, the offset of the last page and the offsets of
      the neighbouring pages, when there are any. */
  datatype Pager = Pager(page: int, numPages: int, lastPage: int,
                         previousPage: Option<int>, nextPage: Option<int>)

  /** The query parameters' defaults. */
  const DefaultSkip: int := 0
  const DefaultLimit: int := 10

  /** A query parameter's value, or its default when the query lacks it. */
  function Param(given: Option<int>, default: int): (r: int)
    ensures given.Some? ==> r == given.value
    ensures given.None? ==> r == default
  {
    if given.Some? then given.value else default
  }

  /** The paging values for a window of `limit` rows starting at row `skip`
      of a view with `totalRows` rows. */
  function PagerFor(skip: int, limit: int, totalRows: nat): (r: Pager)
    requires limit != 0
    ensures r.previousPage.Some? <==> r.page > 1
    ensures r.previousPage.Some? ==> r.previousPage.value == skip - limit
    ensures r.nextPage.Some? <==> r.page < r.numPages
    ensures r.nextPage.Some? ==> r.nextPage.value == skip + limit
  {
    var page := FloorDiv(skip, limit) + 1;
    var numPages := CeilDiv(totalRows, limit);
    var lastPage := (numPages - 1) * limit;
    var previousPage := if page > 1 then Some(skip - limit) else None;
    var nextPage := if page < numPages then Some(skip + limit) else None;
    Pager(page, numPages, lastPage, previousPage, nextPage)
  }

  /** The paging computation of `view`: the query's `skip` and `limit`
      (defaults 0 and 10) and the view's row count give the paging values;
      a zero limit raises `ZeroDivisionError`. */
  function Paginate(skipParam: Option<int>, limitParam: Option<int>, totalRows: nat): (r: Result<Pager, ViewError>)
    ensures r.Failure? <==> limitParam == Some(0)
    ensures r.Failure? ==> r.error == ZeroDivisionError
    ensures r.Success? ==> r.value == PagerFor(Param(skipParam, DefaultSkip), Param(limitParam, DefaultLimit), totalRows)
  {
    var skip := Param(skipParam, DefaultSkip);
    var limit := Param(limitParam, DefaultLimit);
    if limit == 0 then Failure(ZeroDivisionError) else Success(PagerFor(skip, limit, totalRows))
  }

  /** Without `skip` and `limit` in the query the page is the first one of
      ten rows, and there is no previous page. */
  lemma DefaultsGiveFirstPage(totalRows: nat)
    ensures Paginate(None, None, totalRows).Success?
    ensures var p := Paginate(None, None, totalRows).value;
            p.page == 1 && p.previousPage == None
            && (p.numPages - 1) * 10 < totalRows <= p.numPages * 10
            && (p.nextPage.Some? <==> 10 < totalRows)
  {
    var p := Paginate(None, None, totalRows).value;
    assert p == PagerFor(0, 10, totalRows);
    NextPageExists(0, 10, totalRows);
  }

  /** `a <= b` is kept by multiplying with a positive factor. */
  lemma MulMonotone(a: int, b: int, c: int)
    requires a <= b && c > 0
    ensures a * c <= b * c
  {
    assert b * c - a * c == (b - a) * c;
  }

  /** The page number is the one-based index of the `limit`-row page that
      holds row `skip`. */
  lemma PageHoldsSkip(skip: int, limit: int, totalRows: nat)
    requires skip >= 0 && limit > 0
    ensures var p := PagerFor(skip, limit, totalRows);
            p.page >= 1 && (p.page - 1) * limit <= skip < p.page * limit
  {
    var q := FloorDiv(skip, limit);
    assert (q + 1) * limit == q * limit + limit;
    if q < 0 {
      MulMonotone(q + 1, 0, limit);
    }
  }

  /** The number of pages is the least `n` with `n * limit >= totalRows`. */
  lemma NumPagesIsCeiling(limit: int, totalRows: nat, n: int)
    requires limit > 0
    ensures var p := PagerFor(0, limit, totalRows);
            p.numPages >= 0 && p.numPages * limit >= totalRows
            && (n * limit >= totalRows ==> n >= p.numPages)
  {
    var numPages := CeilDiv(totalRows, limit);
    assert (numPages - 1) * limit == numPages * limit - limit;
    if numPages < 0 {
      MulMonotone(numPages, -1, limit);
    }
    if n * limit >= totalRows && n < numPages {
      MulMonotone(n, numPages - 1, limit);
    }
  }

  /** Paging values other than `page`, `previousPage` and `nextPage` do not
      depend on `skip`. */
  lemma PagesIndependentOfSkip(skip: int, limit: int, totalRows: nat)
    requires limit != 0
    ensures PagerFor(skip, limit, totalRows).numPages == PagerFor(0, limit, totalRows).numPages
    ensures PagerFor(skip, limit, totalRows).lastPage == PagerFor(0, limit, totalRows).lastPage
  {
  }

  /** The last page holds the last row; for an empty view its offset is
      `-limit`. */
  lemma LastPageHoldsLastRow(skip: int, limit: int, totalRows: nat)
    requires limit > 0
    ensures var p := PagerFor(skip, limit, totalRows);
            (totalRows > 0 ==> 0 <= p.lastPage < totalRows <= p.lastPage + limit)
            && (totalRows == 0 ==> p.lastPage == -limit)
  {
    var numPages := CeilDiv(totalRows, limit);
    NumPagesIsCeiling(limit, totalRows, 0);
    assert (numPages - 1) * limit == numPages * limit - limit;
    if totalRows > 0 {
      assert numPages >= 1;
      MulMonotone(0, numPages - 1, limit);
    } else {
      assert numPages == 0 by { NumPagesIsCeiling(limit, totalRows, 0); }
    }
  }

  /** There is a previous page exactly when the window does not start
      within the first page; it starts `limit` rows earlier, never before
      row 0. */
  lemma PreviousPageExists(skip: int, limit: int, totalRows: nat)
    requires skip >= 0 && limit > 0
    ensures var p := PagerFor(skip, limit, totalRows);
            (p.previousPage.Some? <==> skip >= limit)
            && (p.previousPage.Some? ==> p.previousPage.value == skip - limit >= 0)
  {
    PageHoldsSkip(skip, limit, totalRows);
    var page := PagerFor(skip, limit, totalRows).page;
    if page > 1 {
      MulMonotone(1, page - 1, limit);
    } else {
      assert page * limit == limit;
    }
  }

  /** There is a next page exactly when some row lies beyond the page that
      holds row `skip`; it starts `limit` rows later. */
  lemma NextPageExists(skip: int, limit: int, totalRows: nat)
    requires skip >= 0 && limit > 0
    ensures var p := PagerFor(skip, limit, totalRows);
            (p.nextPage.Some? <==> p.page * limit < totalRows)
            && (p.nextPage.Some? ==> p.nextPage.value == skip + limit)
  {
    var p := PagerFor(skip, limit, totalRows);
    NumPagesIsCeiling(limit, totalRows, p.page);
    assert (p.numPages - 1) * limit == p.numPages * limit - limit;
    if p.page < p.numPages {
      MulMonotone(p.page, p.numPages - 1, limit);
    }
  }

  /** For a window aligned on a page boundary, as every link of the page
      is, there is a next page exactly when rows remain after the window. */
  lemma AlignedNextPage(k: nat, limit: int, totalRows: nat)
    requires limit > 0
    ensures var p := PagerFor(k * limit, limit, totalRows);
            p.page == k + 1 && (p.nextPage.Some? <==> k * limit + limit < totalRows)
  {
    PageHoldsSkip(k * limit, limit, totalRows);
    var page := PagerFor(k * limit, limit, totalRows).page;
    assert (k + 1) * limit == k * limit + limit;
    if page < k + 1 {
      MulMonotone(page, k, limit);
    } else if page > k + 1 {
      MulMonotone(k + 1, page - 1, limit);
    }
    NextPageExists(k * limit, limit, totalRows);
  }

  /** Following the next link and then the previous link returns to the
      same window, one page further on and back. */
  lemma NextThenPrevious(skip: int, limit: int, totalRows: nat)
    requires skip >= 0 && limit > 0
    requires PagerFor(skip, limit, totalRows).nextPage.Some?
    ensures var next := PagerFor(skip, limit, totalRows).nextPage.value;
            PagerFor(next, limit, totalRows).page == PagerFor(skip, limit, totalRows).page + 1
            && PagerFor(next, limit, totalRows).previousPage == Some(skip)
  {
    var next := skip + limit;
    PageHoldsSkip(skip, limit, totalRows);
    PageHoldsSkip(next, limit, totalRows);
    var page := PagerFor(skip, limit, totalRows).page;
    var page' := PagerFor(next, limit, totalRows).page;
    assert (page + 1) * limit == page * limit + limit;
    assert (page' - 1) * limit == page' * limit - limit;
    if page' < page + 1 {
      MulMonotone(page', page, limit);
    } else if page' > page + 1 {
      MulMonotone(page + 1, page' - 1, limit);
    }
  }

  /** From a window that starts at an existing row, following the previous
      link and then the next link returns to the same window. */
  lemma PreviousThenNext(skip: int, limit: int, totalRows: nat)
    requires limit > 0 && limit <= skip < totalRows
    ensures PagerFor(skip, limit, totalRows).previousPage == Some(skip - limit)
    ensures PagerFor(skip - limit, limit, totalRows).nextPage == Some(skip)
  {
    PreviousPageExists(skip, limit, totalRows);
    PageHoldsSkip(skip - limit, limit, totalRows);
    NextPageExists(skip - limit, limit, totalRows);
    var page := PagerFor(skip - limit, limit, totalRows).page;
    assert page * limit <= skip by {
      assert (page - 1) * limit + limit == page * limit;
    }
  }

  /** The window at the last page's offset is the last page: it has no
      next page. */
  lemma LastPageHasNoNext(limit: int, totalRows: nat)
    requires limit > 0
    ensures var last := PagerFor(0, limit, totalRows).lastPage;
            PagerFor(last, limit, totalRows).page == PagerFor(0, limit, totalRows).numPages
            && PagerFor(last, limit, totalRows).nextPage == None
  {
    var numPages := PagerFor(0, limit, totalRows).numPages;
    var last := PagerFor(0, limit, totalRows).lastPage;
    NumPagesIsCeiling(limit, totalRows, 0);
    if totalRows == 0 {
      assert numPages == 0;
      var page := PagerFor(last, limit, totalRows).page;
      assert (page - 1) * limit <= -limit < page * limit;
      if page < 0 { MulMonotone(page, -1, limit); }
      if page > 0 { MulMonotone(1, page, limit); }
    } else {
      assert numPages >= 1;
      AlignedNextPage(numPages - 1, limit, totalRows);
      assert (numPages - 1) * limit + limit == numPages * limit;
    }
  }

  // ---------------------------------------------------------------------
  // Design-document names (views.py:78-80)
  // ---------------------------------------------------------------------

  /** `s.split(sep)`: the pieces of `s` between separators, in order. */
  function Split(s: string, sep: char): (parts: seq<string>)
    ensures |parts| >= 1
    ensures |parts| == 1 <==> sep !in s
    ensures forall i :: 0 <= i < |parts| ==> sep !in parts[i]
    decreases |s|
  {
    if |s| == 0 then [""]
    else
      var tail := Split(s[1..], sep);
      if s[0] == sep then [""] + tail
      else [[s[0]] + tail[0]] + tail[1..]
  }

  /** `sep.join(parts)`. */
  function Join(parts: seq<string>, sep: char): string
    requires |parts| >= 1
    decreases |parts|
  {
    if |parts| == 1 then parts[0] else parts[0] + [sep] + Join(parts[1..], sep)
  }

  /** Joining the pieces with the separator gives back the string. */
  lemma {:induction false} JoinSplit(s: string, sep: char)
    ensures Join(Split(s, sep), sep) == s
    decreases |s|
  {
    if |s| > 0 {
      var tail := Split(s[1..], sep);
      JoinSplit(s[1..], sep);
      if s[0] == sep {
        assert Split(s, sep)[1..] == tail;
        assert s == [sep] + s[1..];
      } else if |tail| == 1 {
        assert s == [s[0]] + s[1..];
      } else {
        var parts := Split(s, sep);
        assert parts[1..] == tail[1..];
        assert Join(tail, sep) == tail[0] + [sep] + Join(tail[1..], sep);
        assert s == [s[0]] + s[1..];
      }
    }
  }

  /** The first piece is the longest separator-free prefix: it runs up to
      the first separator or to the end. */
  lemma FirstPiece(s: string, sep: char)
    ensures var first := Split(s, sep)[0];
            first <= s && (|first| == |s| || s[|first|] == sep)
  {
    var parts := Split(s, sep);
    JoinSplit(s, sep);
    if |parts| > 1 {
      assert s == parts[0] + [sep] + Join(parts[1..], sep);
    }
  }

  /** A piece with no separator, then a separator: the split starts with
      that piece, followed by the split of the rest. */
  lemma {:induction false} SplitAfterFirst(head: string, rest: string, sep: char)
    requires sep !in head
    ensures Split(head + [sep] + rest, sep) == [head] + Split(rest, sep)
    decreases |head|
  {
    var s := head + [sep] + rest;
    if |head| == 0 {
      assert s[1..] == rest;
    } else {
      assert s[1..] == head[1..] + [sep] + rest;
      SplitAfterFirst(head[1..], rest, sep);
      assert [head[0]] + head[1..] == head;
    }
  }

  /** `design_doc["id"].split("/")[1]`: the second `/`-separated piece of a
      document id; an id without `/` raises `IndexError`. */
  function DesignDocName(id: string): (r: Result<string, ViewError>)
    ensures r.Failure? <==> '/' !in id
    ensures r.Failure? ==> r.error == IndexError
    ensures r.Success? ==> '/' !in r.value
  {
    var parts := Split(id, '/');
    if |parts| < 2 then Failure(IndexError) else Success(parts[1])
  }

  /** For any id `<head>/<tail>` whose `<head>` has no `/`, the
      design-document name is the part of `<tail>` before its first `/`
      (all of `<tail>` when it has none). */
  lemma DesignDocNameIsSecondPiece(head: string, tail: string)
    requires '/' !in head
    ensures var r := DesignDocName(head + "/" + tail);
            r.Success? && r.value <= tail && '/' !in r.value
            && (|r.value| == |tail| || tail[|r.value|] == '/')
  {
    assert head + "/" + tail == head + ['/'] + tail;
    SplitAfterFirst(head, tail, '/');
    FirstPiece(tail, '/');
  }

  /** For `_design/<name>`, and for any id with `_design` followed by `/`,
      the name, and optionally `/` and more, the design-document name is
      `<name>`. */
  lemma DesignDocNameOfId(name: string, more: Option<string>)
    requires '/' !in name
    ensures var id := if more.Some? then "_design/" + name + "/" + more.value else "_design/" + name;
            DesignDocName(id) == Success(name)
  {
    var tail := if more.Some? then name + "/" + more.value else name;
    var id := if more.Some? then "_design/" + name + "/" + more.value else "_design/" + name;
    assert id == "_design" + ['/'] + tail;
    SplitAfterFirst("_design", tail, '/');
    assert Split(id, '/') == ["_design"] + Split(tail, '/');
    if more.Some? {
      assert tail == name + ['/'] + more.value;
      SplitAfterFirst(name, more.value, '/');
      assert Split(tail, '/')[0] == name;
    } else {
      JoinSplit(name, '/');
      assert Split(tail, '/') == [name];
    }
  }
}
