/**
 * The state of the sentiment-analysis page and its handlers. React re-runs the
 * filter/sort effect whenever one of its dependencies (data, filters, search query,
 * sort key, sort order) changes; each handler below therefore ends with that
 * effect, `Refresh`, exactly when it changes a dependency.
 */
module SentimentPage {
  import opened Wrappers
  import opened Seqs
  import opened Remote
  import JsText
  import opened SentimentCsv
  import opened SentimentSort
  import opened SentimentView

  /** `uploadStatus`: its `type` ("", loading, success, error) and message. */
  datatype UploadStatus = Idle | Loading(message: string) | Succeeded(message: string) | Failed(message: string)

  /** One of the three drop-downs. */
  datatype FilterField = KategoriField | NamaProdukField | SentimentField

  /** `{ ...prev, [filterKey]: value }`. */
  function WithFilter(f: Filters, field: FilterField, value: string): (g: Filters)
    ensures field == KategoriField ==> g.kategori == value && g.namaProduk == f.namaProduk && g.sentiment == f.sentiment
    ensures field == NamaProdukField ==> g.namaProduk == value && g.kategori == f.kategori && g.sentiment == f.sentiment
    ensures field == SentimentField ==> g.sentiment == value && g.kategori == f.kategori && g.namaProduk == f.namaProduk
  {
    match field
    case KategoriField => f.(kategori := value)
    case NamaProdukField => f.(namaProduk := value)
    case SentimentField => f.(sentiment := value)
  }

  function Flip(order: SortOrder): SortOrder {
    if order == Asc then Desc else Asc
  }

  const Processing: string := "Processing file..."
  const ProcessingError: string := "Error processing file: "
  const Processed: string := "File processed successfully!"

  /** What one upload leaves behind: the status, the rows it loaded, and the cached token. */
  datatype UploadOutcome = UploadOutcome(status: UploadStatus, rows: Option<seq<Row>>, token: Option<string>)

  /**
   * The token `fetchGitHubToken` yields: the cached one when it is a non-empty
   * string (an empty one is falsy and counts as absent), else a fresh one from the endpoint.
   */
  function TokenFor(cached: Option<string>, response: Response<string>): (r: Result<string>)
    ensures cached.Some? && cached.value != "" ==> r == Success(cached.value)
    ensures cached.None? || cached.value == "" ==> (r.Success? <==> response.Ok?) && (r.Success? ==> r.value == response.body)
  {
    match cached
    case Some(token) => if token != "" then Success(token) else TokenResult(response)
    case None => TokenResult(response)
  }

  /**
   * `uploadToGitHub` as written: the PUT, the parse and their `throw`s run inside
   * `reader.onload`, after the `try` block has already completed, so those errors
   * escape the `catch` and the status stays "Processing file...".
   */
  function UploadAsWritten(cached: Option<string>, tokenResponse: Response<string>, putResponse: Response<()>, parsed: seq<Row>): UploadOutcome {
    match TokenFor(cached, tokenResponse)
    case Failure(e) => UploadOutcome(Failed(ProcessingError + e), None, cached)
    case Success(token) =>
      if !putResponse.Ok? || parsed == [] then UploadOutcome(Loading(Processing), None, Some(token))
      else UploadOutcome(Succeeded(Processed), Some(parsed), Some(token))
  }

  /** The upload with the `onload` errors reported like every other failure. */
  function Upload(cached: Option<string>, tokenResponse: Response<string>, putResponse: Response<()>, parsed: seq<Row>): UploadOutcome {
    match TokenFor(cached, tokenResponse)
    case Failure(e) => UploadOutcome(Failed(ProcessingError + e), None, cached)
    case Success(token) =>
      match putResponse
      case NotOk(_) => UploadOutcome(Failed(ProcessingError + "Failed to upload file to GitHub"), None, Some(token))
      case Rejected(m) => UploadOutcome(Failed(ProcessingError + m), None, Some(token))
      case Ok(_) =>
        if parsed == [] then UploadOutcome(Failed(ProcessingError + "No valid data found in CSV"), None, Some(token))
        else UploadOutcome(Succeeded(Processed), Some(parsed), Some(token))
  }

  /**
   * With a token in hand, a file without usable rows or a refused PUT leaves the
   * page loading for good.
   */
  lemma UploadAsWrittenHangs(cached: Option<string>, tokenResponse: Response<string>, putResponse: Response<()>, parsed: seq<Row>)
    requires TokenFor(cached, tokenResponse).Success? && (!putResponse.Ok? || parsed == [])
    ensures UploadAsWritten(cached, tokenResponse, putResponse, parsed).status == Loading(Processing)
    ensures UploadAsWritten(cached, tokenResponse, putResponse, parsed).rows == None
  {
  }

  /**
   * The corrected upload always settles: it succeeds exactly when the PUT succeeds
   * and the file has rows, loads exactly those rows, and otherwise reports why.
   */
  lemma UploadSettles(cached: Option<string>, tokenResponse: Response<string>, putResponse: Response<()>, parsed: seq<Row>)
    ensures var o := Upload(cached, tokenResponse, putResponse, parsed);
      && !o.status.Loading?
      && (o.status.Succeeded? <==> TokenFor(cached, tokenResponse).Success? && putResponse.Ok? && parsed != [])
      && (o.rows.Some? <==> o.status.Succeeded?)
      && (o.rows.Some? ==> o.rows.value == parsed && o.rows.value != [])
      && (o.status.Failed? ==> JsText.StartsWith(o.status.message, ProcessingError))
      && (o.token.Some? <==> cached.Some? || tokenResponse.Ok?)
      && (cached.Some? && cached.value != "" ==> o.token == cached)
      && (cached.None? || cached.value == "" ==> o.token == if tokenResponse.Ok? then Some(tokenResponse.body) else cached)
  {
  }

  /** Wherever the code as written settles, the corrected upload does the same. */
  lemma UploadAgreesWhenSettled(cached: Option<string>, tokenResponse: Response<string>, putResponse: Response<()>, parsed: seq<Row>)
    requires !UploadAsWritten(cached, tokenResponse, putResponse, parsed).status.Loading?
    ensures Upload(cached, tokenResponse, putResponse, parsed) == UploadAsWritten(cached, tokenResponse, putResponse, parsed)
  {
  }

  /** The filtering half of the effect: `let result = [...data]` narrowed criterion by criterion. */
  method Narrow(data: seq<Row>, f: Filters, query: string) returns (result: seq<Row>)
    ensures result == Selected(data, f, query)
  {
    result := data;
    if f.kategori != "" {
      result := Filter(result, ByKategori(f.kategori));
    }
    if f.namaProduk != "" {
      result := Filter(result, ByNamaProduk(f.namaProduk));
    }
    if f.sentiment != "" {
      result := Filter(result, BySentiment(f.sentiment));
    }
    if query != "" {
      result := Filter(result, Mentions(query));
    }
    NarrowedIsSelected(data, f, query);
  }

  /** The sorting half of the effect: `result.sort(comparator)` on an array copy. */
  method SortedCopy(rows: seq<Row>, key: SortKey, order: SortOrder) returns (sorted: seq<Row>)
    ensures sorted == SortRows(rows, key, order)
  {
    var copy := new Row[|rows|](i requires 0 <= i < |rows| => rows[i]);
    assert copy[..] == rows;
    SortInPlace(copy, key, order);
    sorted := copy[..];
  }

  class SentimentTable {
    var data: seq<Row>
    var filteredData: seq<Row>
    var filters: Filters
    var searchQuery: string
    var sortKey: Option<SortKey>
    var sortOrder: SortOrder
    var currentPage: int
    var uploadStatus: UploadStatus
    var githubToken: Option<string>

    /** Every row of `data` came out of the CSV parser, so it has the parser's shape. */
    predicate Ingested()
      reads this
    {
      forall i :: 0 <= i < |data| ==> WellFormedRow(data[i])
    }

    /**
     * The table holds parsed rows and shows the view of the current criteria, on a
     * page that exists (page 1 when there are none).
     */
    predicate Consistent()
      reads this
    {
      && Ingested()
      && filteredData == View(data, filters, searchQuery, sortKey, sortOrder)
      && 1 <= currentPage
      && (currentPage == 1 || currentPage <= TotalPages(|filteredData|))
    }

    constructor()
      ensures data == [] && filteredData == [] && filters == NoFilters && searchQuery == ""
      ensures sortKey == None && sortOrder == Asc && currentPage == 1
      ensures uploadStatus == Idle && githubToken == None
      ensures Consistent()
    {
      data, filteredData := [], [];
      filters, searchQuery := NoFilters, "";
      sortKey, sortOrder := None, Asc;
      currentPage := 1;
      uploadStatus, githubToken := Idle, None;
    }

    /** The filter/sort effect: narrows `data` criterion by criterion, sorts a copy in place, and goes to page 1. */
    method Refresh()
      requires Ingested()
      modifies this
      ensures filteredData == View(data, filters, searchQuery, sortKey, sortOrder)
      ensures currentPage == 1
      ensures data == old(data) && filters == old(filters) && searchQuery == old(searchQuery)
      ensures sortKey == old(sortKey) && sortOrder == old(sortOrder)
      ensures uploadStatus == old(uploadStatus) && githubToken == old(githubToken)
      ensures Consistent()
    {
      var result := Narrow(data, filters, searchQuery);
      if sortKey.Some? {
        result := SortedCopy(result, sortKey.value, sortOrder);
      }
      filteredData := result;
      currentPage := 1;
    }

    /** `handleSort`: the same column flips the direction, another column sorts ascending by it. */
    method HandleSort(key: SortKey)
      requires Ingested()
      modifies this
      ensures old(sortKey) == Some(key) ==> sortKey == Some(key) && sortOrder == Flip(old(sortOrder))
      ensures old(sortKey) != Some(key) ==> sortKey == Some(key) && sortOrder == Asc
      ensures data == old(data) && filters == old(filters) && searchQuery == old(searchQuery)
      ensures uploadStatus == old(uploadStatus) && githubToken == old(githubToken)
      ensures currentPage == 1 && Consistent()
    {
      if sortKey == Some(key) {
        sortOrder := Flip(sortOrder);
      } else {
        sortKey := Some(key);
        sortOrder := Asc;
      }
      Refresh();
    }

    /** `resetFilters`: every criterion cleared, so the table shows all data in upload order. */
    method ResetFilters()
      requires Ingested()
      modifies this
      ensures filters == NoFilters && searchQuery == "" && sortKey == None && sortOrder == Asc
      ensures filteredData == data
      ensures data == old(data) && uploadStatus == old(uploadStatus) && githubToken == old(githubToken)
      ensures currentPage == 1 && Consistent()
    {
      filters := NoFilters;
      searchQuery := "";
      sortKey := None;
      sortOrder := Asc;
      Refresh();
      ResetShowsAll(data);
    }

    /** `handleFilterChange`: a new filters object, so the effect runs even if the value is unchanged. */
    method SetFilter(field: FilterField, value: string)
      requires Ingested()
      modifies this
      ensures filters == WithFilter(old(filters), field, value)
      ensures data == old(data) && searchQuery == old(searchQuery)
      ensures sortKey == old(sortKey) && sortOrder == old(sortOrder)
      ensures uploadStatus == old(uploadStatus) && githubToken == old(githubToken)
      ensures currentPage == 1 && Consistent()
    {
      filters := WithFilter(filters, field, value);
      Refresh();
    }

    /** `handleSearchChange`: React skips the effect when the query is unchanged. */
    method SetSearch(query: string)
      requires Ingested()
      modifies this
      ensures searchQuery == query
      ensures data == old(data) && filters == old(filters)
      ensures sortKey == old(sortKey) && sortOrder == old(sortOrder)
      ensures uploadStatus == old(uploadStatus) && githubToken == old(githubToken)
      ensures query != old(searchQuery) ==> currentPage == 1 && Consistent()
      ensures query == old(searchQuery) ==> filteredData == old(filteredData) && currentPage == old(currentPage)
      ensures old(Consistent()) ==> Consistent()
    {
      if query != searchQuery {
        searchQuery := query;
        Refresh();
      }
    }

    /** The "< Prev" button. */
    method Prev()
      modifies this
      ensures currentPage == PrevPage(old(currentPage))
      ensures data == old(data) && filteredData == old(filteredData) && filters == old(filters)
      ensures searchQuery == old(searchQuery) && sortKey == old(sortKey) && sortOrder == old(sortOrder)
      ensures uploadStatus == old(uploadStatus) && githubToken == old(githubToken)
      ensures old(Consistent()) ==> Consistent()
    {
      currentPage := PrevPage(currentPage);
    }

    /** The "Next >" button, rendered only when there is more than one page. */
    method Next()
      modifies this
      ensures currentPage == NextPage(old(currentPage), TotalPages(|filteredData|))
      ensures data == old(data) && filteredData == old(filteredData) && filters == old(filters)
      ensures searchQuery == old(searchQuery) && sortKey == old(sortKey) && sortOrder == old(sortOrder)
      ensures uploadStatus == old(uploadStatus) && githubToken == old(githubToken)
      ensures old(Consistent()) && ShowsPagination(TotalPages(|filteredData|)) ==> Consistent()
    {
      currentPage := NextPage(currentPage, TotalPages(|filteredData|));
    }

    /** A page button of the strip. */
    method GoToPage(page: int)
      modifies this
      ensures currentPage == page
      ensures data == old(data) && filteredData == old(filteredData) && filters == old(filters)
      ensures searchQuery == old(searchQuery) && sortKey == old(sortKey) && sortOrder == old(sortOrder)
      ensures uploadStatus == old(uploadStatus) && githubToken == old(githubToken)
      ensures old(Consistent()) && PageButton(page) in PageStrip(old(currentPage), TotalPages(|filteredData|)) ==> Consistent()
    {
      ghost var strip := PageStrip(currentPage, TotalPages(|filteredData|));
      if Consistent() && PageButton(page) in strip && currentPage <= TotalPages(|filteredData|) {
        PageStripShape(currentPage, TotalPages(|filteredData|));
      }
      currentPage := page;
    }

    /** `paginatedData`: the rows of the current page. */
    function Shown(): (rows: seq<Row>)
      reads this
      requires Consistent()
      ensures |rows| <= RowsPerPage
      ensures forall r :: r in rows ==> r in filteredData
      ensures rows == [] <==> filteredData == []
    {
      PageWindow(filteredData, currentPage);
      PageRows(filteredData, currentPage)
    }

    /** `downloadCSV`: the text of the file offered for download. */
    method DownloadCsv() returns (text: string)
      requires Consistent()
      ensures text == ExportText(filteredData)
      ensures JsText.Split(text, '\n') == [ExportHeader] + ExportLines(filteredData)
      ensures forall i :: 0 <= i < |filteredData| ==> JsText.Split(ExportLine(filteredData[i]), ',') == ExportCells(filteredData[i])
    {
      text := ExportText(filteredData);
      ViewContents(data, filters, searchQuery, sortKey, sortOrder);
      forall i | 0 <= i < |filteredData|
        ensures SingleLine(filteredData[i])
        ensures JsText.Split(ExportLine(filteredData[i]), ',') == ExportCells(filteredData[i])
      {
        assert filteredData[i] in data;
        var j :| 0 <= j < |data| && data[j] == filteredData[i];
        WellFormedRowExports(data[j]);
      }
      ExportLineCount(filteredData);
    }

    /** `uploadToGitHub` with the completed file reading; the new data re-runs the effect. */
    method UploadFile(tokenResponse: Response<string>, putResponse: Response<()>, text: string)
      returns (outcome: UploadOutcome)
      modifies this
      ensures outcome == Upload(old(githubToken), tokenResponse, putResponse, ParseCsv(text))
      ensures uploadStatus == outcome.status && githubToken == outcome.token
      ensures outcome.rows.Some? ==> data == outcome.rows.value && currentPage == 1 && Consistent()
      ensures outcome.rows.None? ==> data == old(data) && filteredData == old(filteredData) && currentPage == old(currentPage)
      ensures filters == old(filters) && searchQuery == old(searchQuery)
      ensures sortKey == old(sortKey) && sortOrder == old(sortOrder)
    {
      var parsed := ParseCsv(text);
      outcome := Upload(githubToken, tokenResponse, putResponse, parsed);
      ParsedRowsWellFormed(text);
      UploadSettles(githubToken, tokenResponse, putResponse, parsed);
      Apply(outcome);
    }

    /** The state updates that follow an upload: status and token, and the rows when there are any. */
    method Apply(outcome: UploadOutcome)
      requires outcome.rows.Some? ==> forall i :: 0 <= i < |outcome.rows.value| ==> WellFormedRow(outcome.rows.value[i])
      modifies this
      ensures uploadStatus == outcome.status && githubToken == outcome.token
      ensures outcome.rows.Some? ==> data == outcome.rows.value && currentPage == 1 && Consistent()
      ensures outcome.rows.None? ==> data == old(data) && filteredData == old(filteredData) && currentPage == old(currentPage)
      ensures filters == old(filters) && searchQuery == old(searchQuery)
      ensures sortKey == old(sortKey) && sortOrder == old(sortOrder)
    {
      uploadStatus := outcome.status;
      githubToken := outcome.token;
      if outcome.rows.Some? {
        var rows := outcome.rows.value;
        data := rows;
        filteredData := rows;
        Refresh();
        assert data == rows;
      }
    }
  }
}
