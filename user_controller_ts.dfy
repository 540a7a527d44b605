/**
 * The Express user controller's list endpoint over MongoDB: the query-string defaults, the
 * `parseInt` of page and page size, the skip, the search filter and the pagination block with
 * `Math.ceil(total / pageSize)`.
 */
module UserControllerMongo {
  import opened Wrappers
  import opened JsValues
  import opened JsNumbers
  import opened Digits
  import opened Batching
  import opened UserSearch

  /** `req.query`: each parameter absent or given as text. */
  datatype ListQuery = ListQuery(page: Option<string>, pageSize: Option<string>, search: Option<string>)

  /** `page = '1'`: the default applies only when the parameter is absent. */
  function PageNum(q: ListQuery): Option<int> {
    ParseInt(q.page.GetOr("1"))
  }

  /** `pageSize = '10'`, likewise. */
  function PageSizeNum(q: ListQuery): Option<int> {
    ParseInt(q.pageSize.GetOr("10"))
  }

  /** `(pageNum - 1) * pageSizeNum`, NaN when either is NaN. */
  function SkipIndex(q: ListQuery): Option<int> {
    if PageNum(q).Some? && PageSizeNum(q).Some? then Some((PageNum(q).value - 1) * PageSizeNum(q).value) else None
  }

  /** What the controller asks the store for: `find(filter).skip(skipIndex).limit(pageSizeNum)`. */
  datatype FindRequest = FindRequest(filter: Filter, skip: Option<int>, limit: Option<int>)

  /** A number in JSON: NaN is written as null. */
  function Json(n: Option<int>): Value {
    if n.Some? then Num(n.value) else Null
  }

  /** The `pagination` block, numbers as JSON writes them. */
  datatype Pagination = Pagination(page: Value, pageSize: Value, total: nat, totalPages: Value)

  /** The JSON body: a listing with `status: true`, or an error with `status: false`. */
  datatype Body =
    | Listed(message: string, data: seq<Value>, pagination: Pagination)
    | Failed(message: string, error: string)
  {
    /** The `status` field. */
    predicate Status() {
      Listed?
    }
  }

  datatype Response = Response(status: nat, body: Body)

  /**
   * `getUsers`, with the outcome of compiling the search term and the store's answers as
   * inputs: the `SyntaxError` message `new RegExp(search, 'i')` throws for an invalid term (if
   * any), the projected documents found (or the error raised) and the count (or the error
   * raised). An invalid term fails before the store is asked anything; any error gives 500.
   */
  function GetUsers(q: ListQuery, patternError: Option<string>, found: Result<seq<Value>>, counted: Result<nat>): (r: (Option<FindRequest>, Response))
    ensures r.0.None? <==> PatternRejected(q.search, patternError)
    ensures r.0.Some? ==> r.0.value == FindRequest(SearchFilter(q.search), SkipIndex(q), PageSizeNum(q))
    ensures r.1.status == 200 <==> r.0.Some? && found.Ok? && counted.Ok?
    ensures r.1.status == 200 <==> r.1.body.Status()
    ensures r.1.status != 200 ==> r.1.status == 500 && r.1.body.message == "Error al obtener usuarios"
    ensures r.0.None? ==> r.1.body == Failed("Error al obtener usuarios", patternError.value)
    ensures r.0.Some? && found.Err? ==> r.1.body == Failed("Error al obtener usuarios", found.message)
    ensures r.0.Some? && found.Ok? && counted.Err? ==> r.1.body == Failed("Error al obtener usuarios", counted.message)
    ensures r.0.Some? && found.Ok? && counted.Ok? ==> r.1.body.data == found.value && r.1.body.message == "Usuarios obtenidos exitosamente"
  {
    if PatternRejected(q.search, patternError) then (None, Response(500, Failed("Error al obtener usuarios", patternError.value)))
    else
    var request := Some(FindRequest(SearchFilter(q.search), SkipIndex(q), PageSizeNum(q)));
    if found.Err? then (request, Response(500, Failed("Error al obtener usuarios", found.message)))
    else if counted.Err? then (request, Response(500, Failed("Error al obtener usuarios", counted.message)))
    else
      var pageNum := PageNum(q);
      var pageSizeNum := PageSizeNum(q);
      (request, Response(200, Listed("Usuarios obtenidos exitosamente", found.value,
                                     Pagination(Json(pageNum), Json(pageSizeNum), counted.value,
                                                Json(CeilQuotient(counted.value, pageSizeNum))))))
  }

  /** Without page parameters the listing is page 1 of pages of 10, skipping nothing. */
  lemma DefaultsApply(search: Option<string>)
    ensures PageNum(ListQuery(None, None, search)) == Some(1)
    ensures PageSizeNum(ListQuery(None, None, search)) == Some(10)
    ensures SkipIndex(ListQuery(None, None, search)) == Some(0)
  {
    ParseIntDecimal(1);
    ParseIntDecimal(10);
    assert Decimal(1) == "1";
    assert Decimal(10) == "10";
  }

  /** Page numbers given as decimal text are read as written, and the skip is the documents of the pages before. */
  lemma DecimalPagesRead(page: nat, size: nat, search: Option<string>)
    ensures var q := ListQuery(Some(Decimal(page)), Some(Decimal(size)), search);
      PageNum(q) == Some(page) && PageSizeNum(q) == Some(size) && SkipIndex(q) == Some((page - 1) * size)
  {
    var q := ListQuery(Some(Decimal(page)), Some(Decimal(size)), search);
    assert PageNum(q) == Some(page) by {
      ParseIntDecimal(page);
    }
    assert PageSizeNum(q) == Some(size) by {
      ParseIntDecimal(size);
    }
  }

  /**
   * A successful listing echoes page, page size and total, and for a positive page size its
   * page count is the ceiling `(total + size - 1) // size` the Python endpoint computes; for a
   * page size of 0 or one that does not parse the count is null.
   */
  lemma ListingPagination(q: ListQuery, data: seq<Value>, total: nat)
    ensures var p := GetUsers(q, None, Ok(data), Ok(total)).1.body.pagination;
      && p.page == Json(PageNum(q)) && p.pageSize == Json(PageSizeNum(q)) && p.total == total
      && (PageSizeNum(q).Some? && PageSizeNum(q).value > 0 ==> p.totalPages == Num(CeilDiv(total, PageSizeNum(q).value)))
      && (PageSizeNum(q).None? || PageSizeNum(q).value == 0 ==> p.totalPages == Null)
  {
    if PageSizeNum(q).Some? && PageSizeNum(q).value > 0 {
      CeilQuotientIsCeilDiv(total, PageSizeNum(q).value);
    }
  }
}
