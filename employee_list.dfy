/** The employee list page: its sort toggle, the name it displays for a row and the
    strip of page links under the table. */
module EmployeeList {
  import opened Wrappers
  import opened Strings

  datatype SortOrder = Asc | Desc
  datatype SortState = SortState(field: string, order: SortOrder)

  /** `handleSort`: clicking a column sorts by it; clicking the column that is already
      sorted ascending turns it descending, and any other click sorts ascending. */
  function HandleSort(prev: SortState, field: string): (next: SortState)
    ensures next.field == field
    ensures next.order == Desc <==> prev == SortState(field, Asc)
  {
    SortState(field, if prev.field == field && prev.order == Asc then Desc else Asc)
  }

  /** After the first click on a column, every second click restores the same order:
      repeated clicks alternate between ascending and descending. */
  lemma SortClicksAlternate(prev: SortState, field: string)
    ensures HandleSort(HandleSort(HandleSort(prev, field), field), field) == HandleSort(prev, field)
    ensures HandleSort(HandleSort(prev, field), field).order != HandleSort(prev, field).order
  {
  }

  /** `getFullName`: the trimmed "first last" when it is not blank, else the record's
      `name` when that is non-empty, else "N/A".  Absent names count as empty. */
  function GetFullName(firstName: Option<string>, lastName: Option<string>, name: Option<string>): (r: string)
    ensures r != ""
    ensures var joined := OrEmpty(firstName) + " " + OrEmpty(lastName);
      !AllWhitespace(joined) ==> r == Trim(joined) && !IsWhitespace(r[0]) && !IsWhitespace(r[|r| - 1])
    ensures var joined := OrEmpty(firstName) + " " + OrEmpty(lastName);
      AllWhitespace(joined) ==> r == (if name.Some? && name.value != "" then name.value else "N/A")
  {
    var full := Trim(OrEmpty(firstName) + " " + OrEmpty(lastName));
    if full != "" then full
    else if name.Some? && name.value != "" then name.value
    else "N/A"
  }

  function OrEmpty(s: Option<string>): string {
    if s.Some? then s.value else ""
  }

  /** `"a".trim()` of a first name alone: with no last name the display is that first
      name without surrounding white space. */
  lemma FullNameOfFirstNameOnly(first: string)
    requires first != [] && !IsWhitespace(first[0]) && !IsWhitespace(first[|first| - 1])
    ensures GetFullName(Some(first), None, None) == first
  {
    var joined := first + " " + "";
    assert joined == first + " ";
    assert !IsWhitespace(joined[0]) && IsWhitespace(joined[|joined| - 1]);
    assert joined[..|joined| - 1] == first;
    TrimOfTrimmed(first);
  }

  /** An entry of the page strip: a page number or the `'...'` separator. */
  datatype PageItem = PageNumber(n: int) | Ellipsis

  function Max(a: int, b: int): int { if a < b then b else a }
  function Min(a: int, b: int): int { if a < b then a else b }

  /** The page numbers `lo`, `lo + 1`, …, `hi` (none when `lo > hi`). */
  function PageRun(lo: int, hi: int): (r: seq<PageItem>)
    ensures |r| == Max(0, hi - lo + 1)
    ensures forall k :: 0 <= k < |r| ==> r[k] == PageNumber(lo + k)
    decreases hi - lo
  {
    if lo > hi then [] else PageRun(lo, hi - 1) + [PageNumber(hi)]
  }

  /** The strip the page shows: page 1; `'...'` when the current page is past 3; the
      pages next to the current one, strictly between the first and the last; `'...'`
      when the current page is more than two before the last; and the last page. */
  function PageStrip(totalPages: int, currentPage: int): seq<PageItem> {
    (if totalPages > 0 then [PageNumber(1)] else [])
    + (if currentPage > 3 then [Ellipsis] else [])
    + PageRun(Max(2, currentPage - 1), Min(totalPages - 1, currentPage + 1))
    + (if currentPage < totalPages - 2 then [Ellipsis] else [])
    + (if totalPages > 1 then [PageNumber(totalPages)] else [])
  }

  /** Page 1 and the leading separator, each when present. */
  function StripHead(totalPages: int, currentPage: int): seq<PageItem> {
    (if totalPages > 0 then [PageNumber(1)] else []) + (if currentPage > 3 then [Ellipsis] else [])
  }

  /** `generatePageNumbers`, loop and `includes` checks as written. */
  method GeneratePageNumbers(totalPages: int, currentPage: int) returns (pages: seq<PageItem>)
    ensures pages == PageStrip(totalPages, currentPage)
  {
    pages := [];
    if totalPages > 0 {
      pages := pages + [PageNumber(1)];
    }
    if currentPage > 3 {
      pages := pages + [Ellipsis];
    }
    var lo := Max(2, currentPage - 1);
    var hi := Min(totalPages - 1, currentPage + 1);
    var i := lo;
    while i <= hi
      invariant lo <= i <= Max(lo, hi + 1)
      invariant pages == StripHead(totalPages, currentPage) + PageRun(lo, i - 1)
    {
      NotYetListed(StripHead(totalPages, currentPage), lo, i);
      if PageNumber(i) !in pages {
        pages := pages + [PageNumber(i)];
      }
      i := i + 1;
    }
    if currentPage < totalPages - 2 {
      pages := pages + [Ellipsis];
    }
    LastNotYetListed(totalPages, currentPage, pages);
    if totalPages > 1 && PageNumber(totalPages) !in pages {
      pages := pages + [PageNumber(totalPages)];
    }
  }

  /** While the run is built, the next page number is not in the strip yet. */
  lemma NotYetListed(head: seq<PageItem>, lo: int, i: int)
    requires forall k :: 0 <= k < |head| && head[k].PageNumber? ==> head[k].n == 1
    requires 2 <= lo <= i
    ensures PageNumber(i) !in head + PageRun(lo, i - 1)
    ensures head + PageRun(lo, i) == head + PageRun(lo, i - 1) + [PageNumber(i)]
  {
    var s := head + PageRun(lo, i - 1);
    forall k | 0 <= k < |s| ensures s[k] != PageNumber(i) {
      if k >= |head| {
        assert s[k] == PageRun(lo, i - 1)[k - |head|];
      }
    }
  }

  /** Before the last page is appended, it is not in the strip yet. */
  lemma LastNotYetListed(totalPages: int, currentPage: int, pages: seq<PageItem>)
    requires pages == StripHead(totalPages, currentPage)
                      + PageRun(Max(2, currentPage - 1), Min(totalPages - 1, currentPage + 1))
                      + (if currentPage < totalPages - 2 then [Ellipsis] else [])
    ensures totalPages > 1 ==> PageNumber(totalPages) !in pages
    ensures pages + (if totalPages > 1 then [PageNumber(totalPages)] else []) == PageStrip(totalPages, currentPage)
  {
    var head := StripHead(totalPages, currentPage);
    var run := PageRun(Max(2, currentPage - 1), Min(totalPages - 1, currentPage + 1));
    if totalPages > 1 {
      forall k | 0 <= k < |pages| ensures pages[k] != PageNumber(totalPages) {
        if |head| <= k < |head| + |run| {
          assert pages[k] == run[k - |head|];
        }
      }
    }
  }

  /** The strip entry by entry: page 1, the leading separator, the run of pages next to
      the current one, the trailing separator and the last page, each when present. */
  lemma PageStripShape(totalPages: int, currentPage: int)
    ensures var s := PageStrip(totalPages, currentPage);
      var f := if totalPages > 0 then 1 else 0;
      var l := if currentPage > 3 then 1 else 0;
      var lo := Max(2, currentPage - 1);
      var m := Max(0, Min(totalPages - 1, currentPage + 1) - lo + 1);
      var t := if currentPage < totalPages - 2 then 1 else 0;
      var e := if totalPages > 1 then 1 else 0;
      && |s| == f + l + m + t + e
      && forall k :: 0 <= k < |s| ==>
           s[k] == (if k < f then PageNumber(1)
                    else if k < f + l then Ellipsis
                    else if k < f + l + m then PageNumber(lo + k - f - l)
                    else if k < f + l + m + t then Ellipsis
                    else PageNumber(totalPages))
  {
    var first := if totalPages > 0 then [PageNumber(1)] else [];
    var lead := if currentPage > 3 then [Ellipsis] else [];
    var run := PageRun(Max(2, currentPage - 1), Min(totalPages - 1, currentPage + 1));
    var trail := if currentPage < totalPages - 2 then [Ellipsis] else [];
    var last := if totalPages > 1 then [PageNumber(totalPages)] else [];
    var s := first + lead + run + trail + last;
    assert s == PageStrip(totalPages, currentPage);
    var a := |first + lead|;
    var b := |first + lead + run|;
    forall k | 0 <= k < |s|
      ensures k < |first| ==> s[k] == first[k]
      ensures |first| <= k < a ==> s[k] == lead[k - |first|]
      ensures a <= k < b ==> s[k] == run[k - a]
      ensures b <= k < b + |trail| ==> s[k] == trail[k - b]
      ensures b + |trail| <= k ==> s[k] == last[k - b - |trail|]
    {
    }
  }

  /** The page numbers of the strip are strictly increasing and lie in `1..totalPages`. */
  lemma PageStripNumbersIncreasing(totalPages: int, currentPage: int)
    ensures var s := PageStrip(totalPages, currentPage);
      forall i, j :: 0 <= i < j < |s| && s[i].PageNumber? && s[j].PageNumber? ==> s[i].n < s[j].n
    ensures var s := PageStrip(totalPages, currentPage);
      forall i :: 0 <= i < |s| && s[i].PageNumber? ==> 1 <= s[i].n <= totalPages
  {
    PageStripShape(totalPages, currentPage);
  }

  /** Never two separators side by side, whatever the current page. */
  lemma PageStripSeparatorsApart(totalPages: int, currentPage: int)
    ensures var s := PageStrip(totalPages, currentPage);
      forall i :: 0 <= i < |s| - 1 ==> !(s[i] == Ellipsis && s[i + 1] == Ellipsis)
  {
    PageStripShape(totalPages, currentPage);
  }

  /** For a real current page, a separator sits directly after page 1 exactly when the
      current page is past 3, and directly before the last page exactly when the
      current page is more than two before it. */
  lemma PageStripEllipses(totalPages: int, currentPage: int)
    requires 1 <= currentPage <= totalPages
    ensures var s := PageStrip(totalPages, currentPage);
      currentPage > 3 <==> |s| > 1 && s[1] == Ellipsis
    ensures var s := PageStrip(totalPages, currentPage);
      currentPage < totalPages - 2 <==> |s| > 1 && s[|s| - 2] == Ellipsis
  {
    PageStripShape(totalPages, currentPage);
  }

  /** The current page always appears in the strip when it is a real page. */
  lemma PageStripShowsCurrentPage(totalPages: int, currentPage: int)
    requires 1 <= currentPage <= totalPages
    ensures PageNumber(currentPage) in PageStrip(totalPages, currentPage)
  {
    PageStripShape(totalPages, currentPage);
    var s := PageStrip(totalPages, currentPage);
    var lo := Max(2, currentPage - 1);
    var l := if currentPage > 3 then 1 else 0;
    if currentPage == 1 {
      assert s[0] == PageNumber(1);
    } else if currentPage == totalPages {
      assert s[|s| - 1] == PageNumber(totalPages);
    } else {
      assert s[1 + l + currentPage - lo] == PageNumber(currentPage);
    }
  }
}
