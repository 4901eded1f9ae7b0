/** The state of the campaign table (src/components/table/DataTable.tsx):
    the search term, the sort column and direction, the two select filters
    and the current page, with the handlers that change them. The rows
    arrive as the `data` prop, a parameter of every query. */
module Table {
  import opened Types
  import opened Query
  import Csv
  import Text

  /** handleSort: the current column flips its direction, another column
      becomes the sort column in descending order. */
  function SortToggle(field: SortField, dir: Direction, clicked: SortField): (r: (SortField, Direction))
    ensures r.0 == clicked
    ensures clicked == field ==> r.1 != dir
    ensures clicked != field ==> r.1 == Desc
  {
    if clicked == field then (field, if dir == Asc then Desc else Asc)
    else (clicked, Desc)
  }

  /** Clicking the same header twice restores the sort. */
  lemma SortToggleTwice(field: SortField, dir: Direction)
    ensures var once := SortToggle(field, dir, field);
      SortToggle(once.0, once.1, field) == (field, dir)
  {
  }

  /** Clicking a new header always sorts descending first, whatever came before. */
  lemma SortToggleNewColumn(field: SortField, dir: Direction, clicked: SortField)
    requires clicked != field
    ensures SortToggle(field, dir, clicked) == SortToggle(field, Asc, clicked) == (clicked, Desc)
  {
  }

  /** The Previous button: disabled on page 1, otherwise max(1, page - 1). */
  function PrevPage(page: int): (r: int)
    ensures r >= 1
    ensures page > 1 ==> r == page - 1
    ensures page <= 1 ==> r == 1
  {
    if page == 1 then page
    else if page - 1 > 1 then page - 1 else 1
  }

  /** The Next button: disabled on page totalPages, otherwise
      min(totalPages, page + 1). */
  function NextPage(page: int, total: nat): (r: int)
    ensures page < total ==> r == page + 1
    ensures page >= total ==> r == total
    ensures page >= 0 ==> r >= 0
  {
    if page == total then page
    else if total < page + 1 then total else page + 1
  }

  /** With no matching rows, Next moves page 1 to page 0, below the first
      page, and the slice of page 0 is empty. */
  lemma NextOnEmptyTable(page: int)
    requires page >= 1
    ensures NextPage(page, TotalPages(0)) == 0
    ensures PageOf<MetricData>([], NextPage(page, TotalPages(0))) == []
  {
  }

  /** On a page that exists, Previous and Next keep to pages that exist,
      and Next followed by Previous returns, except on the last page. */
  lemma PagesStayInRange(page: int, total: nat)
    requires 1 <= page <= total
    ensures 1 <= PrevPage(page) <= total
    ensures 1 <= NextPage(page, total) <= total
    ensures page < total ==> PrevPage(NextPage(page, total)) == page
  {
  }

  class DataTable {
    var searchTerm: string
    var sortField: SortField
    var sortDirection: Direction
    var filterChannel: string
    var filterStatus: string
    var currentPage: int

    /** The page never drops below 0: only Next on an empty table leaves
        page 1, and only for page 0. */
    ghost predicate Valid()
      reads this
    {
      currentPage >= 0
    }

    /** The initial state: no search, revenue descending, both selects on
        "All", page 1. */
    constructor ()
      ensures Valid()
      ensures searchTerm == "" && filterChannel == "" && filterStatus == ""
      ensures sortField == RevenueColumn && sortDirection == Desc
      ensures currentPage == 1
    {
      searchTerm := "";
      sortField := RevenueColumn;
      sortDirection := Desc;
      filterChannel := "";
      filterStatus := "";
      currentPage := 1;
    }

    /** filteredData for the rows `data`. */
    function Filtered(data: seq<MetricData>): seq<MetricData>
      reads this
    {
      FilteredData(data, searchTerm, filterChannel, filterStatus, sortField, sortDirection)
    }

    function PageCount(data: seq<MetricData>): nat
      reads this
    {
      TotalPages(|Filtered(data)|)
    }

    /** paginatedData. */
    function Paginated(data: seq<MetricData>): seq<MetricData>
      reads this
    {
      PageOf(Filtered(data), currentPage)
    }

    method HandleSort(clicked: SortField)
      requires Valid()
      modifies this
      ensures Valid()
      ensures (sortField, sortDirection) == SortToggle(old(sortField), old(sortDirection), clicked)
      ensures searchTerm == old(searchTerm) && filterChannel == old(filterChannel)
      ensures filterStatus == old(filterStatus) && currentPage == old(currentPage)
    {
      var toggled := SortToggle(sortField, sortDirection, clicked);
      sortField, sortDirection := toggled.0, toggled.1;
    }

    method Previous()
      requires Valid()
      modifies this
      ensures Valid()
      ensures currentPage == PrevPage(old(currentPage))
      ensures searchTerm == old(searchTerm) && filterChannel == old(filterChannel) && filterStatus == old(filterStatus)
      ensures sortField == old(sortField) && sortDirection == old(sortDirection)
    {
      currentPage := PrevPage(currentPage);
    }

    method Next(data: seq<MetricData>)
      requires Valid()
      modifies this
      ensures Valid()
      ensures currentPage == NextPage(old(currentPage), old(PageCount(data)))
      ensures searchTerm == old(searchTerm) && filterChannel == old(filterChannel) && filterStatus == old(filterStatus)
      ensures sortField == old(sortField) && sortDirection == old(sortDirection)
    {
      currentPage := NextPage(currentPage, PageCount(data));
    }

    /** A numbered page button; only the first min(5, totalPages) exist. */
    method GoToPage(page: int, data: seq<MetricData>)
      requires Valid()
      requires 1 <= page <= Min(5, PageCount(data))
      modifies this
      ensures Valid()
      ensures currentPage == page
      ensures Paginated(data) != [] && |Paginated(data)| <= ItemsPerPage
      ensures searchTerm == old(searchTerm) && filterChannel == old(filterChannel) && filterStatus == old(filterStatus)
      ensures sortField == old(sortField) && sortDirection == old(sortDirection)
    {
      currentPage := page;
      PageOfSpec(Filtered(data), page);
    }

    /** The search box. The current page is kept, so it may now lie beyond
        the last page. */
    method SetSearchTerm(term: string)
      requires Valid()
      modifies this
      ensures Valid()
      ensures searchTerm == term
      ensures filterChannel == old(filterChannel) && filterStatus == old(filterStatus)
      ensures sortField == old(sortField) && sortDirection == old(sortDirection) && currentPage == old(currentPage)
    {
      searchTerm := term;
    }

    method SetFilterChannel(channel: string)
      requires Valid()
      modifies this
      ensures Valid()
      ensures filterChannel == channel
      ensures searchTerm == old(searchTerm) && filterStatus == old(filterStatus)
      ensures sortField == old(sortField) && sortDirection == old(sortDirection) && currentPage == old(currentPage)
    {
      filterChannel := channel;
    }

    method SetFilterStatus(status: string)
      requires Valid()
      modifies this
      ensures Valid()
      ensures filterStatus == status
      ensures searchTerm == old(searchTerm) && filterChannel == old(filterChannel)
      ensures sortField == old(sortField) && sortDirection == old(sortDirection) && currentPage == old(currentPage)
    {
      filterStatus := status;
    }

    /** exportToCSV: the text of the downloaded file. */
    function CsvExport(data: seq<MetricData>): string
      reads this
    {
      Csv.CsvContent(Filtered(data))
    }

    /** What the table shows for the rows `data`: exactly the rows that
        match the current query, in the current column order; the fewest
        pages that hold them; and the current page's slice of at most ten
        of them. */
    lemma ViewSpec(data: seq<MetricData>)
      ensures forall x :: x in Filtered(data) <==> x in data && Matches(x, searchTerm, filterChannel, filterStatus)
      ensures multiset(Filtered(data)) == multiset(FilterRecords(data, searchTerm, filterChannel, filterStatus))
      ensures Ordered(sortField, sortDirection, Filtered(data))
      ensures PageCount(data) * ItemsPerPage >= |Filtered(data)|
      ensures PageCount(data) == 0 || (PageCount(data) - 1) * ItemsPerPage < |Filtered(data)|
      ensures |Paginated(data)| <= ItemsPerPage
      ensures 1 <= currentPage <= PageCount(data) ==>
        && currentPage * ItemsPerPage - ItemsPerPage < |Filtered(data)|
        && Paginated(data) != []
        && Paginated(data) == Filtered(data)[(currentPage - 1) * ItemsPerPage..Min(currentPage * ItemsPerPage, |Filtered(data)|)]
    {
      FilteredDataSpec(data, searchTerm, filterChannel, filterStatus, sortField, sortDirection);
      PageOfSpec(Filtered(data), currentPage);
    }

    /** The exported file, when no name or channel holds `,` or a newline:
        the header line, then one line per row of `filteredData`, in its
        order, each splitting back into that row's cells. Pagination does
        not limit the export. */
    lemma CsvExportLines(data: seq<MetricData>)
      requires forall x :: x in data ==> Csv.PlainRow(x)
      ensures var lines := Text.Split(CsvExport(data), '\n');
        && |lines| == |Filtered(data)| + 1
        && lines[0] == Csv.HeaderLine()
        && forall i :: 0 <= i < |Filtered(data)| ==> Text.Split(lines[i + 1], ',') == Csv.RowFields(Filtered(data)[i])
    {
      var rows := Filtered(data);
      FilteredDataSpec(data, searchTerm, filterChannel, filterStatus, sortField, sortDirection);
      forall i | 0 <= i < |rows| ensures Csv.PlainRow(rows[i]) {
        assert rows[i] in rows;
      }
      Csv.CsvContentLines(rows);
    }
  }
}
