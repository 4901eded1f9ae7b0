/** The query pipeline of the campaign table (src/components/table/DataTable.tsx):
    the case-insensitive search and the channel and status filters, the
    column sort, pagination, and the option lists of the two selects. */
module Query {
  import opened Types
  import opened Text
  import opened Seqs
  import Sorting

  // ---------------------------------------------------------------------
  // Sorting
  // ---------------------------------------------------------------------

  /** The columns whose header sorts the table. */
  datatype SortField =
    | NameColumn | RevenueColumn | UsersColumn | ConversionsColumn
    | GrowthColumn | ChannelColumn | StatusColumn

  datatype Direction = Asc | Desc

  /** A cell value as the comparator sees it: a string or a number. */
  datatype Key = Str(s: string) | Num(x: real)

  function KeyOf(f: SortField, r: MetricData): Key {
    match f
    case NameColumn => Str(r.campaignName)
    case RevenueColumn => Num(r.revenue as real)
    case UsersColumn => Num(r.users as real)
    case ConversionsColumn => Num(r.conversions as real)
    case GrowthColumn => Num(r.growth)
    case ChannelColumn => Str(r.channel)
    case StatusColumn => Str(StatusName(r.status))
  }

  predicate IsStringField(f: SortField) {
    f == NameColumn || f == ChannelColumn || f == StatusColumn
  }

  /** The comparator: strings by localeCompare, numbers by subtraction, the
      operands swapped for `desc`, and 0 for values of different types. */
  function CompareKeys(d: Direction, a: Key, b: Key): (r: real)
    ensures a.Str? != b.Str? ==> r == 0.0
    ensures a.Num? && b.Num? ==> (r < 0.0 <==> (if d == Asc then a.x < b.x else b.x < a.x))
  {
    if a.Str? && b.Str? then (if d == Asc then LexCompare(a.s, b.s) else LexCompare(b.s, a.s)) as real
    else if a.Num? && b.Num? then (if d == Asc then a.x - b.x else b.x - a.x)
    else 0.0
  }

  function Compare(f: SortField, d: Direction, a: MetricData, b: MetricData): real {
    CompareKeys(d, KeyOf(f, a), KeyOf(f, b))
  }

  lemma CompareFlip(f: SortField, d: Direction, a: MetricData, b: MetricData)
    ensures Compare(f, d, b, a) == -Compare(f, d, a, b)
  {
    if IsStringField(f) {
      LexCompareFlip(KeyOf(f, a).s, KeyOf(f, b).s);
    }
  }

  /** Two rows tie exactly when their cells in the sort column are equal. */
  lemma CompareZero(f: SortField, d: Direction, a: MetricData, b: MetricData)
    ensures Compare(f, d, a, b) == 0.0 <==> KeyOf(f, a) == KeyOf(f, b)
  {
    if IsStringField(f) {
      LexCompareZero(KeyOf(f, a).s, KeyOf(f, b).s);
      LexCompareZero(KeyOf(f, b).s, KeyOf(f, a).s);
    }
  }

  lemma CompareTransitive(f: SortField, d: Direction, a: MetricData, b: MetricData, c: MetricData)
    requires Compare(f, d, a, b) <= 0.0 && Compare(f, d, b, c) <= 0.0
    ensures Compare(f, d, a, c) <= 0.0
  {
    if IsStringField(f) {
      var ka, kb, kc := KeyOf(f, a).s, KeyOf(f, b).s, KeyOf(f, c).s;
      if d == Asc {
        LexCompareTransitive(ka, kb, kc);
      } else {
        LexCompareTransitive(kc, kb, ka);
      }
    }
  }

  /** The comparator handed to Array.prototype.sort. */
  function RowComparator(f: SortField, d: Direction): (MetricData, MetricData) -> real {
    (a, b) => Compare(f, d, a, b)
  }

  /** The column comparator is antisymmetric and transitive, so the laws of
      the generic sort apply to it. */
  lemma RowComparatorLawful(f: SortField, d: Direction)
    ensures Sorting.LawfulComparator(RowComparator(f, d))
  {
    var cmp := RowComparator(f, d);
    forall a, b ensures cmp(b, a) == -cmp(a, b) {
      CompareFlip(f, d, a, b);
    }
    forall a, b, c | Sorting.Precedes(cmp, a, b) && Sorting.Precedes(cmp, b, c)
      ensures Sorting.Precedes(cmp, a, c)
    {
      CompareTransitive(f, d, a, b, c);
    }
  }

  /** No row is placed before one that the comparator puts ahead of it. */
  ghost predicate Ordered(f: SortField, d: Direction, s: seq<MetricData>) {
    forall i, j :: 0 <= i < j < |s| ==> Compare(f, d, s[i], s[j]) <= 0.0
  }

  lemma OrderedIsSorted(f: SortField, d: Direction, s: seq<MetricData>)
    ensures Ordered(f, d, s) <==> Sorting.Sorted(RowComparator(f, d), s)
  {
  }

  /** `filteredData`'s sort: the stable sort with the column comparator. */
  function SortRecords(f: SortField, d: Direction, s: seq<MetricData>): seq<MetricData> {
    Sorting.Sort(RowComparator(f, d), s)
  }

  function KeyIs(f: SortField, k: Key): MetricData -> bool {
    r => KeyOf(f, r) == k
  }

  /** The rows of `s` whose cell in column `f` is `k`, in their order. */
  function WithKey(f: SortField, s: seq<MetricData>, k: Key): seq<MetricData> {
    Filter(KeyIs(f, k), s)
  }

  /** The rows that tie with `e` are the rows that share its cell. */
  lemma TiesAreWithKey(f: SortField, d: Direction, s: seq<MetricData>, e: MetricData)
    ensures Sorting.Ties(RowComparator(f, d), s, e) == WithKey(f, s, KeyOf(f, e))
  {
    forall x ensures Sorting.TiesWith(RowComparator(f, d), e)(x) == KeyIs(f, KeyOf(f, e))(x) {
      CompareZero(f, d, x, e);
    }
    FilterCongruent(Sorting.TiesWith(RowComparator(f, d), e), KeyIs(f, KeyOf(f, e)), s);
  }

  /** The sort returns a permutation of its input in column order. */
  lemma SortRecordsCorrect(f: SortField, d: Direction, s: seq<MetricData>)
    ensures Ordered(f, d, SortRecords(f, d, s))
    ensures multiset(SortRecords(f, d, s)) == multiset(s)
  {
    RowComparatorLawful(f, d);
    Sorting.SortCorrect(RowComparator(f, d), s);
    OrderedIsSorted(f, d, SortRecords(f, d, s));
  }

  /** The sort is stable: for every cell value, the rows holding it appear
      in the output in the same order as in the input. */
  lemma SortRecordsStable(f: SortField, d: Direction, s: seq<MetricData>, k: Key)
    ensures WithKey(f, SortRecords(f, d, s), k) == WithKey(f, s, k)
  {
    var cmp := RowComparator(f, d);
    RowComparatorLawful(f, d);
    var r := SortRecords(f, d, s);
    if e :| e in s && KeyOf(f, e) == k {
      Sorting.SortStable(cmp, s, e);
      TiesAreWithKey(f, d, r, e);
      TiesAreWithKey(f, d, s, e);
    } else {
      Sorting.SortCorrect(cmp, s);
      forall x | x in r ensures !KeyIs(f, k)(x) {
        assert x in multiset(r);
      }
      FilterNone(KeyIs(f, k), r);
      FilterNone(KeyIs(f, k), s);
    }
  }

  /** Any ordered, stable permutation of `s`, such as the one the engine's
      own stable Array.prototype.sort returns, is SortRecords(f, d, s). */
  lemma SortRecordsUnique(f: SortField, d: Direction, s: seq<MetricData>, r: seq<MetricData>)
    requires Ordered(f, d, r)
    requires multiset(r) == multiset(s)
    requires forall k :: WithKey(f, r, k) == WithKey(f, s, k)
    ensures r == SortRecords(f, d, s)
  {
    var cmp := RowComparator(f, d);
    RowComparatorLawful(f, d);
    var sorted := SortRecords(f, d, s);
    Sorting.SortCorrect(cmp, s);
    OrderedIsSorted(f, d, r);
    forall e ensures Sorting.Ties(cmp, r, e) == Sorting.Ties(cmp, sorted, e) {
      TiesAreWithKey(f, d, r, e);
      TiesAreWithKey(f, d, sorted, e);
      SortRecordsStable(f, d, s, KeyOf(f, e));
    }
    Sorting.StableSortUnique(cmp, r, sorted);
  }

  /** Sorting rows that are already in column order changes nothing. */
  lemma SortOrderedIdentity(f: SortField, d: Direction, s: seq<MetricData>)
    requires Ordered(f, d, s)
    ensures SortRecords(f, d, s) == s
  {
    OrderedIsSorted(f, d, s);
    Sorting.SortSortedIdentity(RowComparator(f, d), s);
  }

  /** On a numeric column, `desc` gives non-increasing and `asc`
      non-decreasing values. */
  lemma NumericOrder(f: SortField, d: Direction, s: seq<MetricData>)
    requires !IsStringField(f)
    ensures var r := SortRecords(f, d, s);
      forall i, j :: 0 <= i < j < |r| ==>
        if d == Desc then KeyOf(f, r[i]).x >= KeyOf(f, r[j]).x else KeyOf(f, r[i]).x <= KeyOf(f, r[j]).x
  {
    SortRecordsCorrect(f, d, s);
    var r := SortRecords(f, d, s);
    forall i, j | 0 <= i < j < |r|
      ensures if d == Desc then KeyOf(f, r[i]).x >= KeyOf(f, r[j]).x else KeyOf(f, r[i]).x <= KeyOf(f, r[j]).x
    {
      assert Compare(f, d, r[i], r[j]) <= 0.0;
    }
  }

  // ---------------------------------------------------------------------
  // Filtering
  // ---------------------------------------------------------------------

  /** The row filter: the lower-cased search term occurs in the lower-cased
      name, and each non-empty select matches exactly. */
  predicate Matches(r: MetricData, searchTerm: string, filterChannel: string, filterStatus: string) {
    && Includes(Lower(r.campaignName), Lower(searchTerm))
    && (filterChannel == "" || r.channel == filterChannel)
    && (filterStatus == "" || StatusName(r.status) == filterStatus)
  }

  function MatchesQuery(searchTerm: string, filterChannel: string, filterStatus: string): MetricData -> bool {
    r => Matches(r, searchTerm, filterChannel, filterStatus)
  }

  function FilterRecords(data: seq<MetricData>, searchTerm: string, filterChannel: string, filterStatus: string): seq<MetricData> {
    Filter(MatchesQuery(searchTerm, filterChannel, filterStatus), data)
  }

  /** The filter keeps exactly the matching rows, as often as `data` holds
      them and in their order; every kept row contains the search term and
      carries the selected channel and status. */
  lemma FilterRecordsSpec(data: seq<MetricData>, searchTerm: string, filterChannel: string, filterStatus: string)
    ensures forall x ::
      multiset(FilterRecords(data, searchTerm, filterChannel, filterStatus))[x] ==
      if Matches(x, searchTerm, filterChannel, filterStatus) then multiset(data)[x] else 0
    ensures Subsequence(FilterRecords(data, searchTerm, filterChannel, filterStatus), data)
    ensures forall x :: x in FilterRecords(data, searchTerm, filterChannel, filterStatus) ==> x in data
    ensures forall x :: x in FilterRecords(data, searchTerm, filterChannel, filterStatus) ==>
      Includes(Lower(x.campaignName), Lower(searchTerm))
    ensures forall x :: x in FilterRecords(data, searchTerm, filterChannel, filterStatus) ==>
      filterChannel != "" ==> x.channel == filterChannel
    ensures forall x :: x in FilterRecords(data, searchTerm, filterChannel, filterStatus) ==>
      filterStatus != "" ==> StatusName(x.status) == filterStatus
  {
    var p := MatchesQuery(searchTerm, filterChannel, filterStatus);
    FilterMultiset(p, data);
    FilterSubsequence(p, data);
  }

  /** With an empty search term and both selects on "All", every row passes
      in its original order. */
  lemma EmptyQueryKeepsAll(data: seq<MetricData>)
    ensures FilterRecords(data, "", "", "") == data
  {
    assert Lower("") == "";
    FilterAll(MatchesQuery("", "", ""), data);
  }

  /** filteredData: the matching rows, sorted by the current column. */
  function FilteredData(data: seq<MetricData>, searchTerm: string, filterChannel: string, filterStatus: string,
                        f: SortField, d: Direction): seq<MetricData> {
    SortRecords(f, d, FilterRecords(data, searchTerm, filterChannel, filterStatus))
  }

  /** filteredData is a sorted, stable permutation of the matching rows. */
  lemma FilteredDataSpec(data: seq<MetricData>, searchTerm: string, filterChannel: string, filterStatus: string,
                         f: SortField, d: Direction)
    ensures var fd := FilteredData(data, searchTerm, filterChannel, filterStatus, f, d);
      && Ordered(f, d, fd)
      && multiset(fd) == multiset(FilterRecords(data, searchTerm, filterChannel, filterStatus))
      && (forall x :: x in fd <==> x in data && Matches(x, searchTerm, filterChannel, filterStatus))
      && (forall k :: WithKey(f, fd, k) == WithKey(f, FilterRecords(data, searchTerm, filterChannel, filterStatus), k))
  {
    var fr := FilterRecords(data, searchTerm, filterChannel, filterStatus);
    SortRecordsCorrect(f, d, fr);
    FilterRecordsSpec(data, searchTerm, filterChannel, filterStatus);
    var fd := FilteredData(data, searchTerm, filterChannel, filterStatus, f, d);
    forall x ensures x in fd <==> x in data && Matches(x, searchTerm, filterChannel, filterStatus) {
      assert x in fd <==> x in multiset(fd);
      assert x in data <==> x in multiset(data);
    }
    forall k ensures WithKey(f, fd, k) == WithKey(f, fr, k) {
      SortRecordsStable(f, d, fr, k);
    }
  }

  // ---------------------------------------------------------------------
  // Pagination
  // ---------------------------------------------------------------------

  const ItemsPerPage: nat := 10

  /** Math.ceil(n / itemsPerPage). */
  function TotalPages(n: nat): (t: nat)
    ensures t * ItemsPerPage >= n
    ensures t == 0 || (t - 1) * ItemsPerPage < n
  {
    (n + ItemsPerPage - 1) / ItemsPerPage
  }

  /** A position argument of Array.prototype.slice: negative values count
      from the end, and the result is clamped to [0, len]. */
  function SliceIndex(k: int, len: nat): (i: nat)
    ensures i <= len
    ensures 0 <= k <= len ==> i == k
    ensures k > len ==> i == len
    ensures k < 0 && 0 <= len + k ==> i == len + k
    ensures len + k < 0 ==> i == 0
  {
    if k < 0 then (if len + k < 0 then 0 else len + k)
    else if k > len then len else k
  }

  function JsSlice<T>(s: seq<T>, start: int, end: int): seq<T> {
    var lo, hi := SliceIndex(start, |s|), SliceIndex(end, |s|);
    if lo < hi then s[lo..hi] else []
  }

  function Min(a: int, b: int): int {
    if a <= b then a else b
  }

  /** paginatedData: filteredData.slice((page - 1) * 10, page * 10). */
  function PageOf<T>(s: seq<T>, page: int): seq<T> {
    JsSlice(s, (page - 1) * ItemsPerPage, page * ItemsPerPage)
  }

  /** A page holds at most ten rows; page p >= 1 holds exactly rows
      (p-1)*10 up to min(p*10, n) and is non-empty up to totalPages; a page
      beyond the last, and page 0, are empty. */
  lemma PageOfSpec<T>(s: seq<T>, page: int)
    ensures |PageOf(s, page)| <= ItemsPerPage
    ensures page >= 1 && (page - 1) * ItemsPerPage < |s| ==>
      PageOf(s, page) == s[(page - 1) * ItemsPerPage..Min(page * ItemsPerPage, |s|)]
    ensures (page == 0 || (page - 1) * ItemsPerPage >= |s|) ==> PageOf(s, page) == []
    ensures 1 <= page <= TotalPages(|s|) ==> PageOf(s, page) != []
  {
  }

  /** Pages 1 to `count`, one after another. */
  function Pages<T>(s: seq<T>, count: nat): seq<T> {
    if count == 0 then [] else Pages(s, count - 1) + PageOf(s, count)
  }

  lemma {:induction false} PagesPrefix<T>(s: seq<T>, count: nat)
    ensures Pages(s, count) == s[..Min(count * ItemsPerPage, |s|)]
  {
    if count > 0 {
      PagesPrefix(s, count - 1);
      var lo := Min((count - 1) * ItemsPerPage, |s|);
      var hi := Min(count * ItemsPerPage, |s|);
      assert s[..lo] + s[lo..hi] == s[..hi];
    }
  }

  /** Pages 1 to totalPages together show every row exactly once, in order. */
  lemma PagesCoverAll<T>(s: seq<T>)
    ensures Pages(s, TotalPages(|s|)) == s
  {
    PagesPrefix(s, TotalPages(|s|));
  }

  // ---------------------------------------------------------------------
  // Options of the channel and status selects
  // ---------------------------------------------------------------------

  function Channels(data: seq<MetricData>): seq<string> {
    Distinct(seq(|data|, i requires 0 <= i < |data| => data[i].channel))
  }

  function Statuses(data: seq<MetricData>): seq<Status> {
    Distinct(seq(|data|, i requires 0 <= i < |data| => data[i].status))
  }

  /** Each channel of `data` is offered exactly once, and nothing else is. */
  lemma ChannelsSpec(data: seq<MetricData>)
    ensures NoDuplicates(Channels(data))
    ensures forall c :: c in Channels(data) <==> exists r :: r in data && r.channel == c
  {
    var cs := seq(|data|, i requires 0 <= i < |data| => data[i].channel);
    forall c ensures c in Channels(data) <==> exists r :: r in data && r.channel == c {
      if c in Channels(data) {
        var i :| 0 <= i < |Channels(data)| && Channels(data)[i] == c;
        var j :| 0 <= j < |cs| && cs[j] == c;
        assert data[j] in data;
      }
      if r :| r in data && r.channel == c {
        var j :| 0 <= j < |data| && data[j] == r;
        assert cs[j] == c;
      }
    }
  }

  /** Each status of `data` is offered exactly once, and nothing else is. */
  lemma StatusesSpec(data: seq<MetricData>)
    ensures NoDuplicates(Statuses(data))
    ensures forall s :: s in Statuses(data) <==> exists r :: r in data && r.status == s
  {
    var ss := seq(|data|, i requires 0 <= i < |data| => data[i].status);
    forall s ensures s in Statuses(data) <==> exists r :: r in data && r.status == s {
      if s in Statuses(data) {
        var i :| 0 <= i < |Statuses(data)| && Statuses(data)[i] == s;
        var j :| 0 <= j < |ss| && ss[j] == s;
        assert data[j] in data;
      }
      if r :| r in data && r.status == s {
        var j :| 0 <= j < |data| && data[j] == r;
        assert ss[j] == s;
      }
    }
  }
}
