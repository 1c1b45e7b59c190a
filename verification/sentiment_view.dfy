/**
 * What the sentiment table shows: the rows the filters and the search keep,
 * optionally sorted, cut into pages of ten, with the page-number strip under the
 * table, the two chart series and the filter drop-down options.
 */
module SentimentView {
  import opened Wrappers
  import opened Seqs
  import JsText
  import opened SentimentCsv
  import opened SentimentSort

  /** The three drop-down filters; the empty string means "all". */
  datatype Filters = Filters(kategori: string, namaProduk: string, sentiment: string)

  const NoFilters: Filters := Filters("", "", "")

  function ByKategori(k: string): Row -> bool {
    (row: Row) => row.kategori == k
  }

  function ByNamaProduk(n: string): Row -> bool {
    (row: Row) => row.namaProduk == n
  }

  function BySentiment(s: string): Row -> bool {
    (row: Row) => row.sentiment == s
  }

  /** Case-insensitive search in the review text. */
  function Mentions(query: string): Row -> bool {
    (row: Row) => JsText.Includes(JsText.ToLower(row.ulasan), JsText.ToLower(query))
  }

  /** A row is shown when it passes every criterion that is set. */
  predicate Matches(f: Filters, query: string, row: Row) {
    && (f.kategori == "" || row.kategori == f.kategori)
    && (f.namaProduk == "" || row.namaProduk == f.namaProduk)
    && (f.sentiment == "" || row.sentiment == f.sentiment)
    && (query == "" || JsText.Includes(JsText.ToLower(row.ulasan), JsText.ToLower(query)))
  }

  function Matching(f: Filters, query: string): Row -> bool {
    (row: Row) => Matches(f, query, row)
  }

  /** The rows that meet the criteria, in data order. */
  function Selected(data: seq<Row>, f: Filters, query: string): seq<Row> {
    Filter(data, Matching(f, query))
  }

  /** The effect's chain of filters, one per criterion that is set, in the effect's order. */
  function Narrowed(data: seq<Row>, f: Filters, query: string): seq<Row> {
    var r1 := if f.kategori != "" then Filter(data, ByKategori(f.kategori)) else data;
    var r2 := if f.namaProduk != "" then Filter(r1, ByNamaProduk(f.namaProduk)) else r1;
    var r3 := if f.sentiment != "" then Filter(r2, BySentiment(f.sentiment)) else r2;
    if query != "" then Filter(r3, Mentions(query)) else r3
  }

  /** Filtering criterion by criterion keeps exactly the rows that meet all of them. */
  lemma NarrowedIsSelected(data: seq<Row>, f: Filters, query: string)
    ensures Narrowed(data, f, query) == Selected(data, f, query)
  {
    var p0 := (row: Row) => true;
    var p1 := (row: Row) => f.kategori == "" || row.kategori == f.kategori;
    var p2 := (row: Row) => p1(row) && (f.namaProduk == "" || row.namaProduk == f.namaProduk);
    var p3 := (row: Row) => p2(row) && (f.sentiment == "" || row.sentiment == f.sentiment);
    FilterAll(data, p0);
    FilterStage(data, p0, f.kategori != "", ByKategori(f.kategori), p1);
    FilterStage(data, p1, f.namaProduk != "", ByNamaProduk(f.namaProduk), p2);
    FilterStage(data, p2, f.sentiment != "", BySentiment(f.sentiment), p3);
    FilterStage(data, p3, query != "", Mentions(query), Matching(f, query));
  }

  /** The table's rows: the selection, sorted when a sort column is chosen. */
  function View(data: seq<Row>, f: Filters, query: string, sortKey: Option<SortKey>, order: SortOrder): seq<Row> {
    match sortKey
    case None => Selected(data, f, query)
    case Some(key) => SortRows(Selected(data, f, query), key, order)
  }

  /**
   * The table shows exactly the rows of `data` that meet the criteria, each as
   * often as in `data`; unsorted it keeps their order, sorted it orders them by the
   * column and keeps rows with equal values in their data order.
   */
  lemma ViewContents(data: seq<Row>, f: Filters, query: string, sortKey: Option<SortKey>, order: SortOrder)
    ensures var v := View(data, f, query, sortKey, order);
      && multiset(v) == multiset(Selected(data, f, query))
      && (forall row :: row in v ==> row in data && Matches(f, query, row))
      && (forall row :: row in data && Matches(f, query, row) ==> row in v)
      && (sortKey.None? ==> IsSubsequence(v, data))
      && (sortKey.Some? ==> Ordered(v, sortKey.value, order))
      && (sortKey.Some? ==> forall k :: WithKey(v, sortKey.value, k) == WithKey(Selected(data, f, query), sortKey.value, k))
  {
    var sel := Selected(data, f, query);
    FilterIsSubsequence(data, Matching(f, query));
    if sortKey.Some? {
      SortRowsPermutation(sel, sortKey.value, order);
      SortRowsOrdered(sel, sortKey.value, order);
      forall k {
        SortRowsStable(sel, sortKey.value, order, k);
      }
    }
    var v := View(data, f, query, sortKey, order);
    forall row | row in v ensures row in data && Matches(f, query, row) {
      assert row in multiset(sel);
    }
    forall row | row in data && Matches(f, query, row) ensures row in v {
      assert row in multiset(v);
    }
  }

  /** After a reset the table shows all data in upload order. */
  lemma ResetShowsAll(data: seq<Row>)
    ensures View(data, NoFilters, "", None, Asc) == data
  {
    FilterAll(data, Matching(NoFilters, ""));
  }

  /** Criteria `f2, q2` are at least as strict as `f1, q1`: each criterion set in the latter is kept. */
  predicate Stricter(f2: Filters, q2: string, f1: Filters, q1: string) {
    && (f1.kategori == "" || f2.kategori == f1.kategori)
    && (f1.namaProduk == "" || f2.namaProduk == f1.namaProduk)
    && (f1.sentiment == "" || f2.sentiment == f1.sentiment)
    && (q1 == "" || q2 == q1)
  }

  /** Setting another filter or search never brings rows back. */
  lemma StricterSelectsFewer(data: seq<Row>, f2: Filters, q2: string, f1: Filters, q1: string)
    requires Stricter(f2, q2, f1, q1)
    ensures IsSubsequence(Selected(data, f2, q2), Selected(data, f1, q1))
  {
    FilterMonotone(data, Matching(f2, q2), Matching(f1, q1));
  }

  // ---------------------------------------------------------------- pagination

  const RowsPerPage: nat := 10

  /** `Math.ceil(n / ROWS_PER_PAGE)`. */
  function TotalPages(n: nat): (t: nat)
    ensures t * RowsPerPage >= n
    ensures t > 0 ==> (t - 1) * RowsPerPage < n
  {
    (n + RowsPerPage - 1) / RowsPerPage
  }

  /** `filteredData.slice(startIndex, startIndex + ROWS_PER_PAGE)` for the page shown. */
  function PageRows(view: seq<Row>, page: int): seq<Row> {
    var start := (page - 1) * RowsPerPage;
    Slice(view, start, start + RowsPerPage)
  }

  /**
   * Page `p` shows at most ten rows, the ones at positions `10(p-1) ..`, and is
   * non-empty exactly when `p` is one of the `TotalPages` pages.
   */
  lemma PageWindow(view: seq<Row>, page: int)
    requires page >= 1
    ensures var start := (page - 1) * RowsPerPage;
      && PageRows(view, page) == view[Clamp(start, |view|)..Clamp(start + RowsPerPage, |view|)]
      && |PageRows(view, page)| <= RowsPerPage
      && (PageRows(view, page) != [] <==> page <= TotalPages(|view|))
  {
  }

  /** The first `k` pages, one after the other. */
  function FirstPages(view: seq<Row>, k: nat): seq<Row> {
    if k == 0 then [] else FirstPages(view, k - 1) + PageRows(view, k)
  }

  lemma {:induction false} FirstPagesPrefix(view: seq<Row>, k: nat)
    ensures FirstPages(view, k) == view[..Clamp(k * RowsPerPage, |view|)]
  {
    if k > 0 {
      FirstPagesPrefix(view, k - 1);
      PageWindow(view, k);
      var a, b := Clamp((k - 1) * RowsPerPage, |view|), Clamp(k * RowsPerPage, |view|);
      assert view[..a] + view[a..b] == view[..b];
    }
  }

  /** The pages together show every row of the table exactly once, in order. */
  lemma PagesCoverView(view: seq<Row>)
    ensures FirstPages(view, TotalPages(|view|)) == view
  {
    FirstPagesPrefix(view, TotalPages(|view|));
  }

  /** The "< Prev" button. */
  function PrevPage(page: int): (p: int)
    ensures p >= 1
    ensures p == page <==> page == 1
    ensures page > 1 ==> p == page - 1
  {
    if page - 1 > 1 then page - 1 else 1
  }

  /** The "Next >" button. */
  function NextPage(page: int, total: nat): (p: int)
    ensures p <= total
    ensures page <= total ==> (p == page <==> page == total)
    ensures page < total ==> p == page + 1
  {
    if page + 1 < total then page + 1 else total
  }

  /** The pagination bar is rendered only when there is more than one page. */
  predicate ShowsPagination(total: nat) {
    total > 1
  }

  /** An entry of the page-number strip: a page button or an ellipsis. */
  datatype PageItem = PageButton(page: int) | Ellipsis

  /** Neighbours of the current page that are neither the first nor the last page. */
  function Neighbours(current: int, total: nat): seq<PageItem> {
    (if 1 < current - 1 < total then [PageButton(current - 1)] else [])
    + (if 1 < current < total then [PageButton(current)] else [])
    + (if 1 < current + 1 < total then [PageButton(current + 1)] else [])
  }

  /** The page-number buttons between "< Prev" and "Next >". */
  function PageStrip(current: int, total: nat): seq<PageItem> {
    if total <= 5 then seq(total, i => PageButton(i + 1))
    else
      [PageButton(1)]
      + (if current > 3 then [Ellipsis] else [])
      + Neighbours(current, total)
      + (if current < total - 2 then [Ellipsis] else [])
      + [PageButton(total)]
  }

  /**
   * What the strip promises a reader: it starts at page 1 and ends at the last page,
   * shows the current page, lists pages in increasing order within range, and
   * between two neighbouring entries either the page numbers are consecutive or an
   * ellipsis stands for the pages skipped.
   */
  predicate GoodStrip(s: seq<PageItem>, current: int, total: nat) {
    && |s| >= 1
    && s[0] == PageButton(1)
    && s[|s| - 1] == PageButton(total)
    && PageButton(current) in s
    && (forall i :: 0 <= i < |s| && s[i].PageButton? ==> 1 <= s[i].page <= total)
    && (forall i :: 0 <= i < |s| - 1 && s[i].PageButton? && s[i + 1].PageButton? ==> s[i + 1].page == s[i].page + 1)
    && (forall i :: 0 < i < |s| - 1 && s[i].Ellipsis? ==>
          s[i - 1].PageButton? && s[i + 1].PageButton? && s[i + 1].page > s[i - 1].page + 1)
    && s[|s| - 1].PageButton?
  }

  /** Up to five pages every page has its button. */
  lemma ShortStrip(current: int, total: nat)
    requires 1 <= current <= total <= 5
    ensures GoodStrip(PageStrip(current, total), current, total)
  {
    var s := PageStrip(current, total);
    assert s[current - 1] == PageButton(current);
  }

  /** The strip when the current page is among the first three. */
  function StartStrip(current: int, total: nat): seq<PageItem> {
    if current == 1 then [PageButton(1), PageButton(2), Ellipsis, PageButton(total)]
    else if current == 2 then [PageButton(1), PageButton(2), PageButton(3), Ellipsis, PageButton(total)]
    else [PageButton(1), PageButton(2), PageButton(3), PageButton(4), Ellipsis, PageButton(total)]
  }

  /** The strip when the current page is among the last three. */
  function EndStrip(current: int, total: nat): seq<PageItem> {
    if current == total - 2 then [PageButton(1), Ellipsis, PageButton(current - 1), PageButton(current), PageButton(current + 1), PageButton(total)]
    else if current == total - 1 then [PageButton(1), Ellipsis, PageButton(current - 1), PageButton(current), PageButton(total)]
    else [PageButton(1), Ellipsis, PageButton(current - 1), PageButton(total)]
  }

  /** The strip otherwise. */
  function MiddleStrip(current: int, total: nat): seq<PageItem> {
    [PageButton(1), Ellipsis, PageButton(current - 1), PageButton(current), PageButton(current + 1), Ellipsis, PageButton(total)]
  }

  lemma StripCases(current: int, total: nat)
    requires 5 < total && 1 <= current <= total
    ensures current <= 3 ==> PageStrip(current, total) == StartStrip(current, total)
    ensures 3 < current < total - 2 ==> PageStrip(current, total) == MiddleStrip(current, total)
    ensures total - 2 <= current ==> PageStrip(current, total) == EndStrip(current, total)
  {
  }

  lemma StartStripGood(current: int, total: nat)
    requires 5 < total && 1 <= current <= 3
    ensures GoodStrip(StartStrip(current, total), current, total)
  {
  }

  lemma MiddleStripGood(current: int, total: nat)
    requires 5 < total && 3 < current < total - 2
    ensures GoodStrip(MiddleStrip(current, total), current, total)
  {
  }

  lemma EndStripGood(current: int, total: nat)
    requires 5 < total && total - 2 <= current <= total
    ensures GoodStrip(EndStrip(current, total), current, total)
  {
  }

  /** For every current page in range the strip is well formed and has at most seven entries. */
  lemma PageStripShape(current: int, total: nat)
    requires 1 <= current <= total
    ensures GoodStrip(PageStrip(current, total), current, total)
    ensures |PageStrip(current, total)| <= 7
  {
    if total <= 5 {
      ShortStrip(current, total);
    } else {
      StripCases(current, total);
      if current <= 3 {
        StartStripGood(current, total);
      } else if current < total - 2 {
        MiddleStripGood(current, total);
      } else {
        EndStripGood(current, total);
      }
    }
  }

  // ---------------------------------------------------------------- charts

  /** The rows whose sentiment, lower-cased, is `tag`. */
  function CountLabel(rows: seq<Row>, tag: string): nat
    decreases |rows|
  {
    if rows == [] then 0
    else CountLabel(rows[..|rows| - 1], tag) + (if JsText.ToLower(rows[|rows| - 1].sentiment) == tag then 1 else 0)
  }

  /** The lower-cased labels that occur among the rows. */
  function Labels(rows: seq<Row>): set<string>
    decreases |rows|
  {
    if rows == [] then {}
    else Labels(rows[..|rows| - 1]) + {JsText.ToLower(rows[|rows| - 1].sentiment)}
  }

  /** A tag is among the labels exactly when some row's label lower-cases to it. */
  lemma {:induction false} LabelsMembers(rows: seq<Row>)
    ensures forall tag :: tag in Labels(rows) <==> exists i :: 0 <= i < |rows| && JsText.ToLower(rows[i].sentiment) == tag
    decreases |rows|
  {
    if rows != [] {
      var init := rows[..|rows| - 1];
      LabelsMembers(init);
      assert forall i :: 0 <= i < |init| ==> init[i] == rows[i];
    }
  }

  /** The rows with the given rating. */
  function CountRating(rows: seq<Row>, rating: int): nat
    decreases |rows|
  {
    if rows == [] then 0
    else CountRating(rows[..|rows| - 1], rating) + (if rows[|rows| - 1].rating == rating then 1 else 0)
  }

  /**
   * `sentimentCounts`: a reduce over the rows into a record that starts with
   * `positive` and `negative` at zero and counts every lower-cased tag.
   */
  method SentimentCounts(rows: seq<Row>) returns (counts: map<string, nat>)
    ensures "positive" in counts && "negative" in counts
    ensures forall tag :: tag in counts ==> counts[tag] == CountLabel(rows, tag)
    ensures forall i :: 0 <= i < |rows| ==> JsText.ToLower(rows[i].sentiment) in counts
    ensures counts.Keys == {"positive", "negative"} + Labels(rows)
  {
    counts := map["positive" := 0, "negative" := 0];
    var i := 0;
    while i < |rows|
      invariant 0 <= i <= |rows|
      invariant "positive" in counts && "negative" in counts
      invariant forall tag :: tag in counts ==> counts[tag] == CountLabel(rows[..i], tag)
      invariant forall tag :: tag !in counts ==> CountLabel(rows[..i], tag) == 0
      invariant counts.Keys == {"positive", "negative"} + Labels(rows[..i])
    {
      var tag := JsText.ToLower(rows[i].sentiment);
      var previous := if tag in counts then counts[tag] else 0;
      counts := counts[tag := previous + 1];
      assert rows[..i + 1][..i] == rows[..i];
      assert Labels(rows[..i + 1]) == Labels(rows[..i]) + {tag};
      i := i + 1;
    }
    assert rows[..i] == rows;
    LabelsMembers(rows);
  }

  /** The chart's keys are the lower-cased labels the import assigns. */
  lemma LowerLabels()
    ensures JsText.ToLower(Positive) == "positive"
    ensures JsText.ToLower(Negative) == "negative"
  {
  }

  lemma {:induction false} SentimentsSplit(rows: seq<Row>)
    requires forall i :: 0 <= i < |rows| ==> rows[i].sentiment == Positive || rows[i].sentiment == Negative
    ensures CountLabel(rows, "positive") + CountLabel(rows, "negative") == |rows|
    decreases |rows|
  {
    if rows != [] {
      SentimentsSplit(rows[..|rows| - 1]);
      LowerLabels();
    }
  }

  /**
   * For rows produced by the CSV import the two bars of the sentiment chart
   * together account for every row of the table.
   */
  lemma SentimentBarsCoverRows(content: string, rows: seq<Row>)
    requires forall i :: 0 <= i < |rows| ==> rows[i] in ParseCsv(content)
    ensures CountLabel(rows, "positive") + CountLabel(rows, "negative") == |rows|
  {
    ParsedRowsWellFormed(content);
    SentimentsSplit(rows);
  }

  /** `ratingCounts`: how many rows carry each rating that occurs. */
  method RatingCounts(rows: seq<Row>) returns (counts: map<int, nat>)
    ensures forall r :: r in counts ==> counts[r] == CountRating(rows, r) && counts[r] > 0
    ensures forall r :: r !in counts ==> CountRating(rows, r) == 0
  {
    counts := map[];
    var i := 0;
    while i < |rows|
      invariant 0 <= i <= |rows|
      invariant forall r :: r in counts ==> counts[r] == CountRating(rows[..i], r) && counts[r] > 0
      invariant forall r :: r !in counts ==> CountRating(rows[..i], r) == 0
    {
      var rating := rows[i].rating;
      var previous := if rating in counts then counts[rating] else 0;
      counts := counts[rating := previous + 1];
      assert rows[..i + 1][..i] == rows[..i];
      i := i + 1;
    }
    assert rows[..i] == rows;
  }

  /** The rating chart's series: `[1, 2, 3, 4, 5].map(r => ratingCounts[r] || 0)`. */
  method RatingSeries(rows: seq<Row>) returns (series: seq<nat>)
    ensures |series| == 5
    ensures forall r :: 1 <= r <= 5 ==> series[r - 1] == CountRating(rows, r)
  {
    var counts := RatingCounts(rows);
    series := seq(5, i => if i + 1 in counts then counts[i + 1] else 0);
  }

  /** The rows whose rating the chart has no bar for. */
  function CountOffScale(rows: seq<Row>): nat
    decreases |rows|
  {
    if rows == [] then 0
    else CountOffScale(rows[..|rows| - 1]) + (if 1 <= rows[|rows| - 1].rating <= 5 then 0 else 1)
  }

  /** The five bars plus the off-scale rows (a rating that did not parse counts as 0) are all rows. */
  lemma {:induction false} RatingBarsAccount(rows: seq<Row>)
    ensures CountRating(rows, 1) + CountRating(rows, 2) + CountRating(rows, 3)
      + CountRating(rows, 4) + CountRating(rows, 5) + CountOffScale(rows) == |rows|
    decreases |rows|
  {
    if rows != [] {
      RatingBarsAccount(rows[..|rows| - 1]);
    }
  }

  // ---------------------------------------------------------------- filter options

  /**
   * Each value of `r` occurs in `values` before any occurrence of a value that
   * comes after it in `r`: `r` lists the values in order of first occurrence.
   */
  predicate FirstOccurrenceOrder(r: seq<string>, values: seq<string>) {
    forall i, j, k :: 0 <= i < j < |r| && 0 <= k < |values| && values[k] == r[j] ==> r[i] in values[..k]
  }

  /** `[...new Set(values)]`: each value once, in order of first occurrence. */
  function Distinct(values: seq<string>): (r: seq<string>)
    ensures forall i, j :: 0 <= i < j < |r| ==> r[i] != r[j]
    ensures forall v :: v in r <==> v in values
    ensures IsSubsequence(r, values)
    ensures FirstOccurrenceOrder(r, values)
    decreases |values|
  {
    if values == [] then []
    else
      var init, last := values[..|values| - 1], values[|values| - 1];
      assert forall v :: v in values <==> v in init || v == last;
      assert init + [last] == values;
      var d := Distinct(init);
      SubsequenceSnoc(d, init, last, last !in init);
      var r := d + (if last in init then [] else [last]);
      assert FirstOccurrenceOrder(r, values) by {
        forall i, j, k | 0 <= i < j < |r| && 0 <= k < |values| && values[k] == r[j]
          ensures r[i] in values[..k]
        {
          assert r[i] == d[i] && d[i] in init;
          if j < |d| && k < |init| {
            assert r[j] == d[j] && init[k] == values[k];
            assert values[..k] == init[..k];
          } else {
            assert k == |init| by {
              if j >= |d| {
                assert r[j] == last && last !in init;
              }
            }
            assert values[..k] == init;
          }
        }
      }
      r
  }

  /** The "Kategori" drop-down: each category of the uploaded data once. */
  function KategoriOptions(data: seq<Row>): (options: seq<string>)
    ensures forall i, j :: 0 <= i < j < |options| ==> options[i] != options[j]
    ensures FirstOccurrenceOrder(options, seq(|data|, i requires 0 <= i < |data| => data[i].kategori))
  {
    Distinct(seq(|data|, i requires 0 <= i < |data| => data[i].kategori))
  }

  /** The "Nama Produk" drop-down. */
  function NamaProdukOptions(data: seq<Row>): (options: seq<string>)
    ensures forall i, j :: 0 <= i < j < |options| ==> options[i] != options[j]
    ensures FirstOccurrenceOrder(options, seq(|data|, i requires 0 <= i < |data| => data[i].namaProduk))
  {
    Distinct(seq(|data|, i requires 0 <= i < |data| => data[i].namaProduk))
  }

  /** Every category option selects at least one row, and every row's category is offered. */
  lemma KategoriOptionsSelect(data: seq<Row>, k: string)
    ensures k in KategoriOptions(data) <==> exists i :: 0 <= i < |data| && data[i].kategori == k
    ensures k in KategoriOptions(data) ==> Selected(data, Filters(k, "", ""), "") != []
  {
    var names := seq(|data|, i requires 0 <= i < |data| => data[i].kategori);
    assert k in KategoriOptions(data) <==> k in names;
    if k in names {
      var i :| 0 <= i < |names| && names[i] == k;
      assert data[i].kategori == k;
      assert Matches(Filters(k, "", ""), "", data[i]);
    }
    if exists i :: 0 <= i < |data| && data[i].kategori == k {
      var i :| 0 <= i < |data| && data[i].kategori == k;
      assert names[i] == k;
    }
  }

  /** Every product option selects at least one row, and every row's product is offered. */
  lemma NamaProdukOptionsSelect(data: seq<Row>, n: string)
    ensures n in NamaProdukOptions(data) <==> exists i :: 0 <= i < |data| && data[i].namaProduk == n
    ensures n in NamaProdukOptions(data) ==> Selected(data, Filters("", n, ""), "") != []
  {
    var names := seq(|data|, i requires 0 <= i < |data| => data[i].namaProduk);
    assert n in NamaProdukOptions(data) <==> n in names;
    if n in names {
      var i :| 0 <= i < |names| && names[i] == n;
      assert data[i].namaProduk == n;
      assert Matches(Filters("", n, ""), "", data[i]);
    }
    if exists i :: 0 <= i < |data| && data[i].namaProduk == n {
      var i :| 0 <= i < |data| && data[i].namaProduk == n;
      assert names[i] == n;
    }
  }
}
