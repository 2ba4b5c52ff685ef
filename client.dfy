/**
 * The public getters of `Client` (`src_js/grndwork_api_client/client.ts`)
 * and the glue between them: page-size defaults, the file listing sent with
 * `records_limit: 0`, the wire shapes of the data and QC window requests,
 * the optional QC merge, and the per-file record fetch of `getData`.
 * Endpoints are abstract functions from the request sent to the decoded
 * body or a failure.
 */
module Client {
  import opened Wrappers
  import opened Paging
  import opened Records
  import ContentRanges
  import PaginatedRequest
  import RecordWindows
  import QCMerge

  const FilesPageSize := 100
  const RecordsPageSize := 1500

  /** `options.page_size || fallback`. */
  function PageSizeOr(pageSize: Option<int>, fallback: int): (n: int)
    ensures Truthy(pageSize) ==> n == pageSize.value
    ensures !Truthy(pageSize) ==> n == fallback
  {
    if Truthy(pageSize) then pageSize.value else fallback
  }

  /** `options.include_qc_flags !== false`: only an explicit `false` turns the flags off. */
  predicate IncludesQC(flag: Option<bool>) {
    flag != Some(false)
  }

  // ---------------------------------------------------------------------
  // Stations and data files: the offset/limit paginator
  // ---------------------------------------------------------------------

  /**
   * `getStations`. The page size reaches `_makePaginatedRequest` inside the
   * options object, where `makePaginatedRequest` does not read it: every
   * page asks for at most the paginator's own default, whatever the caller
   * passed.
   */
  method GetStations<T>(server: Request -> Reply<T>, query: Query, pageSize: Option<int>, fuel: nat)
    returns (run: Run<Request, T>)
    ensures run == PaginatedRequest.Paginate(server, ContentRanges.Parse, query.filters, PaginatedRequest.InitialLimit(query),
                                             PaginatedRequest.InitialOffset(query), PaginatedRequest.DefaultPageSize, fuel)
  {
    run := PaginatedRequest.MakePaginatedRequest(server, query, PaginatedRequest.DefaultPageSize, fuel);
  }

  /** `{...query, records_limit: 0}`: the listing never embeds records. */
  function FilesFilters(filters: map<string, string>): (f: map<string, string>)
    ensures "records_limit" in f && f["records_limit"] == "0"
    ensures forall key :: key in filters && key != "records_limit" ==> key in f && f[key] == filters[key]
    ensures forall key :: key in f ==> key in filters || key == "records_limit"
  {
    filters["records_limit" := "0"]
  }

  /** `_requestDataFiles`, with the page size lost as in `GetStations`. */
  method RequestDataFiles(server: Request -> Reply<DataFile>, query: Query, pageSize: int, fuel: nat)
    returns (run: Run<Request, DataFile>)
    ensures run == PaginatedRequest.Paginate(server, ContentRanges.Parse, FilesFilters(query.filters),
                                             PaginatedRequest.InitialLimit(query), PaginatedRequest.InitialOffset(query),
                                             PaginatedRequest.DefaultPageSize, fuel)
  {
    run := PaginatedRequest.MakePaginatedRequest(server, query.(filters := FilesFilters(query.filters)),
                                                 PaginatedRequest.DefaultPageSize, fuel);
  }

  /** `getDataFiles`: page size `options.page_size || 100`, handed to `_requestDataFiles`. */
  method GetDataFiles(server: Request -> Reply<DataFile>, query: Query, pageSize: Option<int>, fuel: nat)
    returns (run: Run<Request, DataFile>)
    ensures run == PaginatedRequest.Paginate(server, ContentRanges.Parse, FilesFilters(query.filters),
                                             PaginatedRequest.InitialLimit(query), PaginatedRequest.InitialOffset(query),
                                             PaginatedRequest.DefaultPageSize, fuel)
  {
    run := RequestDataFiles(server, query, PageSizeOr(pageSize, FilesPageSize), fuel);
  }

  /**
   * Every request of the file listing carries `records_limit: 0` and the
   * caller's other fields, asks for at most 100 files whatever page size was
   * asked for (and at most the limit), and the offsets strictly increase
   * from `query.offset || 0`.
   */
  lemma DataFilesRequests(server: Request -> Reply<DataFile>, query: Query, fuel: nat)
    ensures var run := PaginatedRequest.Paginate(server, ContentRanges.Parse, FilesFilters(query.filters),
                                                 PaginatedRequest.InitialLimit(query), PaginatedRequest.InitialOffset(query),
                                                 PaginatedRequest.DefaultPageSize, fuel);
            && (forall i :: 0 <= i < |run.requests| ==>
                  run.requests[i].filters == FilesFilters(query.filters)
                  && run.requests[i].filters["records_limit"] == "0"
                  && run.requests[i].limit <= FilesPageSize
                  && (Truthy(query.limit) ==> run.requests[i].limit <= query.limit.value))
            && (forall i :: 0 < i < |run.requests| ==> run.requests[i - 1].offset < run.requests[i].offset)
            && (|run.requests| > 0 ==> run.requests[0].offset == PaginatedRequest.InitialOffset(query))
  {
    PaginatedRequest.PaginateRequests(server, ContentRanges.Parse, FilesFilters(query.filters),
                                      PaginatedRequest.InitialLimit(query), PaginatedRequest.InitialOffset(query),
                                      PaginatedRequest.DefaultPageSize, fuel);
  }

  // ---------------------------------------------------------------------
  // The data and QC endpoints seen through the window loop
  // ---------------------------------------------------------------------

  /** The query `_requestDataRecords` sends: one file, its records windowed. */
  datatype RecordsRequest = RecordsRequest(filename: string, limit: int, recordsLimit: int,
                                           recordsBefore: Option<string>, recordsAfter: Option<string>)

  /** The query `_requestDataQC` sends. */
  datatype QCRequest = QCRequest(filename: string, limit: int, before: Option<string>, after: Option<string>)

  /** One entry of the data endpoint's body: a file and, when present, its `records`. */
  datatype FileWithRecords = FileWithRecords(file: DataFile, records: Option<seq<DataRecord>>)

  /** A data endpoint: the body (possibly `null`) or the error its request throws. */
  type DataServer = RecordsRequest -> Result<Option<seq<FileWithRecords>>, string>

  /** A QC endpoint: the body (possibly `null`) or the error its request throws. */
  type QCServer = QCRequest -> Result<Option<seq<QCRecord>>, string>

  /** A window request as the data endpoint receives it: `limit: 1`, the window in `records_*`. */
  function RecordsWire(w: RecordWindows.WindowRequest): (r: RecordsRequest)
    ensures r.filename == w.filename && r.limit == 1 && r.recordsLimit == w.size
    ensures r.recordsBefore == w.before && r.recordsAfter == w.after
  {
    RecordsRequest(w.filename, 1, w.size, w.before, w.after)
  }

  /** A window request as the QC endpoint receives it: the window in `limit`, `before`, `after`. */
  function QCWire(w: RecordWindows.WindowRequest): (r: QCRequest)
    ensures r.filename == w.filename && r.limit == w.size && r.before == w.before && r.after == w.after
  {
    QCRequest(w.filename, w.size, w.before, w.after)
  }

  /**
   * The page `_requestDataRecords` reads from a body: the first file's
   * records; a `null` or empty body, or a first file without records, reads
   * as the empty page that ends the loop.
   */
  function PageRecords(body: Option<seq<FileWithRecords>>): (page: seq<DataRecord>)
    ensures body.None? || body.value == [] || body.value[0].records.None? ==> page == []
    ensures body.Some? && body.value != [] && body.value[0].records.Some? ==> page == body.value[0].records.value
  {
    if body.Some? && body.value != [] && body.value[0].records.Some? then body.value[0].records.value else []
  }

  /** The page `_requestDataQC` reads from a body: `null` reads as the empty page. */
  function QCPage(body: Option<seq<QCRecord>>): (page: seq<QCRecord>)
    ensures body.None? ==> page == []
    ensures body.Some? ==> page == body.value
  {
    body.GetOr([])
  }

  function RecordsReply(reply: Result<Option<seq<FileWithRecords>>, string>): Result<seq<DataRecord>, string> {
    match reply
    case Success(body) => Success(PageRecords(body))
    case Failure(e) => Failure(e)
  }

  function QCReply(reply: Result<Option<seq<QCRecord>>, string>): Result<seq<QCRecord>, string> {
    match reply
    case Success(body) => Success(QCPage(body))
    case Failure(e) => Failure(e)
  }

  /** The data endpoint as the window loop sees it. */
  function RecordsFetch(server: DataServer): RecordWindows.WindowRequest -> Result<seq<DataRecord>, string> {
    w => RecordsReply(server(RecordsWire(w)))
  }

  /** The QC endpoint as the window loop sees it. */
  function QCFetch(server: QCServer): RecordWindows.WindowRequest -> Result<seq<QCRecord>, string> {
    w => QCReply(server(QCWire(w)))
  }

  function DataStamp(r: DataRecord): string {
    r.timestamp
  }

  function QCStamp(r: QCRecord): string {
    r.timestamp
  }

  /** `_requestDataRecords`: the window loop against the data endpoint. */
  method RequestDataRecords(server: DataServer, query: RecordWindows.WindowQuery, pageSize: int, fuel: nat)
    returns (run: Run<RecordWindows.WindowRequest, DataRecord>)
    ensures run == RecordWindows.Windows(RecordsFetch(server), DataStamp, query, pageSize, fuel)
  {
    run := RecordWindows.WindowLoop(RecordsFetch(server), DataStamp, query, pageSize, fuel);
  }

  /** `_requestDataQC`: the window loop against the QC endpoint. */
  method RequestDataQC(server: QCServer, query: RecordWindows.WindowQuery, pageSize: int, fuel: nat)
    returns (run: Run<RecordWindows.WindowRequest, QCRecord>)
    ensures run == RecordWindows.Windows(QCFetch(server), QCStamp, query, pageSize, fuel)
  {
    run := RecordWindows.WindowLoop(QCFetch(server), QCStamp, query, pageSize, fuel);
  }

  /**
   * What the data endpoint receives: every request asks for one file
   * (`limit: 1`) of the caller's `filename`, with `records_after` the
   * caller's `after` and at most `pageSize` records; the first is
   * `records_limit = min(limit, pageSize)` (the forced limit when the query
   * has none) with `records_before` the caller's `before`.
   */
  lemma RecordsRequests(server: DataServer, q: RecordWindows.WindowQuery, pageSize: int, fuel: nat)
    ensures var reqs := RecordWindows.Windows(RecordsFetch(server), DataStamp, q, pageSize, fuel).requests;
            && (fuel > 0 ==> |reqs| > 0)
            && (|reqs| > 0 ==>
                  RecordsWire(reqs[0]) == RecordsRequest(q.filename, 1, RequestLimit(RecordWindows.StartLimit(q), pageSize), q.before, q.after))
            && (forall i :: 0 <= i < |reqs| ==>
                  var r := RecordsWire(reqs[i]);
                  r.filename == q.filename && r.limit == 1 && r.recordsAfter == q.after && r.recordsLimit <= pageSize)
  {
    var reqs := RecordWindows.Windows(RecordsFetch(server), DataStamp, q, pageSize, fuel).requests;
    RecordWindows.WindowsRequests(RecordsFetch(server), DataStamp, q, pageSize, fuel);
    forall i | 0 <= i < |reqs| ensures reqs[i].size <= pageSize {
      if i == 0 {
        assert reqs[0].size == RequestLimit(RecordWindows.StartLimit(q), pageSize);
      }
    }
  }

  /** What the QC endpoint receives: the same windows, sized by `limit` itself. */
  lemma QCRequests(server: QCServer, q: RecordWindows.WindowQuery, pageSize: int, fuel: nat)
    ensures var reqs := RecordWindows.Windows(QCFetch(server), QCStamp, q, pageSize, fuel).requests;
            && (fuel > 0 ==> |reqs| > 0)
            && (|reqs| > 0 ==>
                  QCWire(reqs[0]) == QCRequest(q.filename, RequestLimit(RecordWindows.StartLimit(q), pageSize), q.before, q.after))
            && (forall i :: 0 <= i < |reqs| ==>
                  var r := QCWire(reqs[i]);
                  r.filename == q.filename && r.after == q.after && r.limit <= pageSize)
  {
    var reqs := RecordWindows.Windows(QCFetch(server), QCStamp, q, pageSize, fuel).requests;
    RecordWindows.WindowsRequests(QCFetch(server), QCStamp, q, pageSize, fuel);
    forall i | 0 <= i < |reqs| ensures reqs[i].size <= pageSize {
      if i == 0 {
        assert reqs[0].size == RequestLimit(RecordWindows.StartLimit(q), pageSize);
      }
    }
  }

  // ---------------------------------------------------------------------
  // getDataRecords / getDataQC
  // ---------------------------------------------------------------------

  /**
   * What a records fetch delivers: the records, and how the data loop and
   * (when flags were asked for) the QC loop ended.
   */
  datatype Delivery = Delivery(records: seq<DataRecord>, dataOutcome: Outcome, qcOutcome: Option<Outcome>)

  /** The data window, merged with the QC window of the same query when `includeQC`. */
  function RecordsDelivery(dataServer: DataServer, qcServer: QCServer, q: RecordWindows.WindowQuery,
                           includeQC: bool, pageSize: int, fuel: nat): Delivery
  {
    var data := RecordWindows.Windows(RecordsFetch(dataServer), DataStamp, q, pageSize, fuel);
    if includeQC then
      var qc := RecordWindows.Windows(QCFetch(qcServer), QCStamp, q, pageSize, fuel);
      Delivery(QCMerge.Merge(data.items, qc.items), data.outcome, Some(qc.outcome))
    else
      Delivery(data.items, data.outcome, None)
  }

  /** `_requestDataRecords`, then `_includeQCFlags` over it when `includeQC`. */
  method PullRecords(dataServer: DataServer, qcServer: QCServer, q: RecordWindows.WindowQuery,
                     includeQC: bool, pageSize: int, fuel: nat) returns (d: Delivery)
    ensures d == RecordsDelivery(dataServer, qcServer, q, includeQC, pageSize, fuel)
  {
    var data := RequestDataRecords(dataServer, q, pageSize, fuel);
    if includeQC {
      var qc := RequestDataQC(qcServer, q, pageSize, fuel);
      var merged := QCMerge.IncludeQCFlags(data.items, qc.items);
      d := Delivery(merged, data.outcome, Some(qc.outcome));
    } else {
      d := Delivery(data.items, data.outcome, None);
    }
  }

  /** `getDataRecords`: page size `options.page_size || 1500`, flags unless `include_qc_flags` is `false`. */
  method GetDataRecords(dataServer: DataServer, qcServer: QCServer, q: RecordWindows.WindowQuery,
                        includeQCFlags: Option<bool>, pageSize: Option<int>, fuel: nat) returns (d: Delivery)
    ensures d == RecordsDelivery(dataServer, qcServer, q, IncludesQC(includeQCFlags),
                                 PageSizeOr(pageSize, RecordsPageSize), fuel)
  {
    d := PullRecords(dataServer, qcServer, q, IncludesQC(includeQCFlags), PageSizeOr(pageSize, RecordsPageSize), fuel);
  }

  /** `getDataQC`: page size `options.page_size || 1500`. */
  method GetDataQC(server: QCServer, q: RecordWindows.WindowQuery, pageSize: Option<int>, fuel: nat)
    returns (run: Run<RecordWindows.WindowRequest, QCRecord>)
    ensures run == RecordWindows.Windows(QCFetch(server), QCStamp, q, PageSizeOr(pageSize, RecordsPageSize), fuel)
  {
    run := RequestDataQC(server, q, PageSizeOr(pageSize, RecordsPageSize), fuel);
  }

  /**
   * The delivered records are the data window's records, one for one and in
   * order: each keeps its timestamp, record number and data, and either is
   * the data record itself or carries the flags of a QC record of the same
   * timestamp from the QC window. Without flags they are the data window.
   */
  lemma DeliveryKeepsData(dataServer: DataServer, qcServer: QCServer, q: RecordWindows.WindowQuery,
                          includeQC: bool, pageSize: int, fuel: nat)
    ensures var data := RecordWindows.Windows(RecordsFetch(dataServer), DataStamp, q, pageSize, fuel).items;
            var qc := RecordWindows.Windows(QCFetch(qcServer), QCStamp, q, pageSize, fuel).items;
            var d := RecordsDelivery(dataServer, qcServer, q, includeQC, pageSize, fuel);
            && |d.records| == |data|
            && (!includeQC ==> d.records == data)
            && (forall k :: 0 <= k < |data| ==>
                  && d.records[k].timestamp == data[k].timestamp
                  && d.records[k].recordNum == data[k].recordNum
                  && d.records[k].data == data[k].data
                  && (d.records[k] == data[k] ||
                      exists j :: 0 <= j < |qc| && qc[j].timestamp == data[k].timestamp
                                  && d.records[k] == Flagged(data[k], qc[j].qcFlags)))
  {
    var data := RecordWindows.Windows(RecordsFetch(dataServer), DataStamp, q, pageSize, fuel).items;
    var qc := RecordWindows.Windows(QCFetch(qcServer), QCStamp, q, pageSize, fuel).items;
    if includeQC {
      var out, p := QCMerge.Merge(data, qc), QCMerge.Pairing(data, qc);
      QCMerge.MergePairs(data, qc);
      forall k | 0 <= k < |data|
        ensures out[k] == data[k] ||
                exists j :: 0 <= j < |qc| && qc[j].timestamp == data[k].timestamp && out[k] == Flagged(data[k], qc[j].qcFlags)
      {
        if p[k].Some? {
          var j := p[k].value;
          assert qc[j].timestamp == data[k].timestamp && out[k] == Flagged(data[k], qc[j].qcFlags);
        }
      }
    }
  }

  /**
   * The limit holds for what is delivered: no more records than a positive
   * `limit`, and at most one when there is no limit and not both ends of a
   * window.
   */
  lemma DeliveryWithinLimit(dataServer: DataServer, qcServer: QCServer, q: RecordWindows.WindowQuery,
                            includeQC: bool, pageSize: int, fuel: nat)
    ensures var d := RecordsDelivery(dataServer, qcServer, q, includeQC, pageSize, fuel);
            && (Truthy(q.limit) && q.limit.value > 0 ==> |d.records| <= q.limit.value)
            && (!Truthy(q.limit) && !(RecordWindows.Filled(q.before) && RecordWindows.Filled(q.after)) ==> |d.records| <= 1)
  {
    RecordWindows.WindowsWithinLimit(RecordsFetch(dataServer), DataStamp, q, pageSize, fuel);
  }

  /**
   * The page-size defaults on the wire (the Python client's test cases for
   * the same defaults): with neither limit nor page size the first data
   * request asks for one record; with `limit: 100` for 100; with
   * `limit: 100` and `page_size: 50` for 50.
   */
  lemma RecordsDefaults(server: DataServer, fuel: nat)
    requires fuel > 0
    ensures var q := RecordWindows.WindowQuery("Test_OneMin.dat", None, None, None);
            RecordsWire(RecordWindows.Windows(RecordsFetch(server), DataStamp, q, PageSizeOr(None, RecordsPageSize), fuel).requests[0])
              == RecordsRequest("Test_OneMin.dat", 1, 1, None, None)
    ensures var q := RecordWindows.WindowQuery("Test_OneMin.dat", Some(100), None, None);
            RecordsWire(RecordWindows.Windows(RecordsFetch(server), DataStamp, q, PageSizeOr(None, RecordsPageSize), fuel).requests[0])
              == RecordsRequest("Test_OneMin.dat", 1, 100, None, None)
    ensures var q := RecordWindows.WindowQuery("Test_OneMin.dat", Some(100), None, None);
            RecordsWire(RecordWindows.Windows(RecordsFetch(server), DataStamp, q, PageSizeOr(Some(50), RecordsPageSize), fuel).requests[0])
              == RecordsRequest("Test_OneMin.dat", 1, 50, None, None)
  {
    RecordsRequests(server, RecordWindows.WindowQuery("Test_OneMin.dat", None, None, None), RecordsPageSize, fuel);
    RecordsRequests(server, RecordWindows.WindowQuery("Test_OneMin.dat", Some(100), None, None), RecordsPageSize, fuel);
    RecordsRequests(server, RecordWindows.WindowQuery("Test_OneMin.dat", Some(100), None, None), 50, fuel);
  }

  // ---------------------------------------------------------------------
  // getData
  // ---------------------------------------------------------------------

  /**
   * The query of `getData`: the listing's own filters, `limit` and `offset`,
   * and the records window applied to every file.
   */
  datatype DataQuery = DataQuery(filters: map<string, string>, limit: Option<int>, offset: Option<int>,
                                 recordsLimit: Option<int>, recordsBefore: Option<string>, recordsAfter: Option<string>)

  /** `filters` with `key` set to `value` when there is one. */
  function WithText(filters: map<string, string>, key: string, value: Option<string>): (f: map<string, string>)
    ensures value.Some? ==> f == filters[key := value.value]
    ensures value.None? ==> f == filters
  {
    if value.Some? then filters[key := value.value] else filters
  }

  /**
   * The whole query as the file listing receives it; `records_before` and
   * `records_after` go along as filters. `records_limit` is not listed:
   * `FilesFilters` overrides it.
   */
  function Listing(q: DataQuery): (l: Query)
    ensures l.limit == q.limit && l.offset == q.offset
  {
    Query(WithText(WithText(q.filters, "records_before", q.recordsBefore), "records_after", q.recordsAfter),
          q.limit, q.offset)
  }

  /** `recordsQuery`: the window fetched for one listed file. */
  function RecordsQuery(file: DataFile, q: DataQuery): (w: RecordWindows.WindowQuery)
    ensures w.filename == file.filename && w.limit == q.recordsLimit
    ensures w.before == q.recordsBefore && w.after == q.recordsAfter
  {
    RecordWindows.WindowQuery(file.filename, q.recordsLimit, q.recordsBefore, q.recordsAfter)
  }

  /** `{...dataFile, records}`. */
  datatype FileRecords = FileRecords(file: DataFile, records: Delivery)

  /** `_includeDataRecords`: each listed file, in order, with its own records fetch. */
  method IncludeDataRecords(files: seq<DataFile>, dataServer: DataServer, qcServer: QCServer, q: DataQuery,
                            includeQC: bool, pageSize: int, fuel: nat) returns (out: seq<FileRecords>)
    ensures |out| == |files|
    ensures forall k :: 0 <= k < |files| ==>
              out[k] == FileRecords(files[k], RecordsDelivery(dataServer, qcServer, RecordsQuery(files[k], q), includeQC, pageSize, fuel))
  {
    out := [];
    for i := 0 to |files|
      invariant |out| == i
      invariant forall k :: 0 <= k < i ==>
                  out[k] == FileRecords(files[k], RecordsDelivery(dataServer, qcServer, RecordsQuery(files[k], q), includeQC, pageSize, fuel))
    {
      var records := PullRecords(dataServer, qcServer, RecordsQuery(files[i], q), includeQC, pageSize, fuel);
      out := out + [FileRecords(files[i], records)];
    }
  }

  /**
   * `getData`: the file listing (page size lost as in `GetDataFiles`), and,
   * when `include_data_records` is set, every listed file with its records
   * under `options.record_page_size || 1500`.
   */
  method GetData(filesServer: Request -> Reply<DataFile>, dataServer: DataServer, qcServer: QCServer, q: DataQuery,
                 includeDataRecords: Option<bool>, includeQCFlags: Option<bool>,
                 filePageSize: Option<int>, recordPageSize: Option<int>, fuel: nat)
    returns (files: Run<Request, DataFile>, withRecords: Option<seq<FileRecords>>)
    ensures files == PaginatedRequest.Paginate(filesServer, ContentRanges.Parse, FilesFilters(Listing(q).filters),
                                               PaginatedRequest.InitialLimit(Listing(q)), PaginatedRequest.InitialOffset(Listing(q)),
                                               PaginatedRequest.DefaultPageSize, fuel)
    ensures withRecords.Some? <==> includeDataRecords == Some(true)
    ensures withRecords.Some? ==>
              |withRecords.value| == |files.items|
              && forall k :: 0 <= k < |files.items| ==>
                   withRecords.value[k] ==
                   FileRecords(files.items[k], RecordsDelivery(dataServer, qcServer, RecordsQuery(files.items[k], q),
                                                              IncludesQC(includeQCFlags), PageSizeOr(recordPageSize, RecordsPageSize), fuel))
  {
    files := RequestDataFiles(filesServer, Listing(q), PageSizeOr(filePageSize, FilesPageSize), fuel);
    if includeDataRecords == Some(true) {
      var out := IncludeDataRecords(files.items, dataServer, qcServer, q, IncludesQC(includeQCFlags),
                                    PageSizeOr(recordPageSize, RecordsPageSize), fuel);
      withRecords := Some(out);
    } else {
      withRecords := None;
    }
  }
}
