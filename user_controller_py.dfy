/**
 * The FastAPI user controller's list endpoint: the page window `(page - 1) * page_size`, the
 * search filter, the in-place stringification of every returned `_id`, and the pagination
 * block with `total_pages = (total + page_size - 1) // page_size`.
 */
module UserControllerPy {
  import opened Wrappers
  import opened HexDigits
  import opened Batching
  import opened UserSearch

  /** `PaginationParams`; the schema admits it only with `page >= 1` and `1 <= page_size <= 100`. */
  datatype PaginationParams = PaginationParams(page: int, pageSize: int, search: Option<string>)

  predicate ValidParams(p: PaginationParams) {
    p.page >= 1 && 1 <= p.pageSize <= 100
  }

  /** A document id: an ObjectId (12 bytes, 24 hex digits) as stored, or text once stringified. */
  datatype DocId = ObjectId(value: nat) | Text(s: string)

  const ObjectIdDigits: nat := 24

  predicate WellFormedId(id: DocId) {
    id.ObjectId? ==> id.value < Pow16(ObjectIdDigits)
  }

  /** `str(id)`: an ObjectId prints as its 24 lowercase hex digits, a string as itself. */
  function IdText(id: DocId): string {
    match id
    case ObjectId(v) => Hex(v, ObjectIdDigits)
    case Text(s) => s
  }

  /** A user document: its `_id` and its other fields. */
  datatype User = User(id: DocId, fields: seq<(string, string)>)

  /** The document after `user["_id"] = str(user["_id"])`. */
  function Stringified(u: User): (r: User)
    ensures r.id.Text? && r.fields == u.fields
  {
    u.(id := Text(IdText(u.id)))
  }

  /** Stringifying twice is stringifying once. */
  lemma StringifiedIdempotent(u: User)
    ensures Stringified(Stringified(u)) == Stringified(u)
  {
  }

  /** Documents with distinct ObjectIds keep distinct ids once stringified. */
  lemma StringifiedKeepsDistinct(u: User, v: User)
    requires u.id.ObjectId? && v.id.ObjectId? && WellFormedId(u.id) && WellFormedId(v.id)
    requires u.id != v.id
    ensures Stringified(u).id != Stringified(v).id
  {
    if Hex(u.id.value, ObjectIdDigits) == Hex(v.id.value, ObjectIdDigits) {
      HexInjective(u.id.value, v.id.value, ObjectIdDigits);
    }
  }

  /** `for user in users: user["_id"] = str(user["_id"])`, in place. */
  method StringifyIds(users: array<User>)
    modifies users
    ensures forall i :: 0 <= i < users.Length ==> users[i] == Stringified(old(users[i]))
  {
    for i := 0 to users.Length
      invariant forall k :: 0 <= k < i ==> users[k] == Stringified(old(users[k]))
      invariant forall k :: i <= k < users.Length ==> users[k] == old(users[k])
    {
      users[i] := Stringified(users[i]);
    }
  }

  /** `skip_index`: the documents on the pages before `page`. */
  function Skip(p: PaginationParams): int {
    (p.page - 1) * p.pageSize
  }

  /** The `pagination` block of a listing. */
  datatype Pagination = Pagination(page: int, pageSize: int, total: nat, totalPages: nat)

  /** The returned dict: a listing with `status: True`, or an error with `status: False`. */
  datatype Reply =
    | Listed(message: string, data: seq<User>, pagination: Pagination)
    | Failed(message: string, error: string)
  {
    /** The `status` field. */
    predicate Status() {
      Listed?
    }
  }

  /** What the controller asks the store for: the filter, the documents to skip and the page size. */
  datatype FindRequest = FindRequest(filter: Filter, skip: int, limit: int)

  /**
   * `get_users`, with the outcome of compiling the search term and the store's answers as
   * inputs: the `re.error` raised for an invalid term (if any), the documents found (or the
   * exception raised) and the count (or the exception raised). An invalid term fails before the
   * store is asked anything; every exception becomes a `status: False` reply.
   */
  method GetUsers(params: PaginationParams, patternError: Option<string>, found: Result<seq<User>>, counted: Result<nat>)
    returns (request: Option<FindRequest>, reply: Reply)
    requires ValidParams(params)
    ensures request.None? <==> PatternRejected(params.search, patternError)
    ensures request.Some? ==> request.value == FindRequest(SearchFilter(params.search), Skip(params), params.pageSize)
    ensures request.Some? ==> request.value.skip >= 0
    ensures reply.Status() <==> request.Some? && found.Ok? && counted.Ok?
    ensures request.None? ==> reply == Failed("Error al obtener usuarios", patternError.value)
    ensures request.Some? && found.Err? ==> reply == Failed("Error al obtener usuarios", found.message)
    ensures request.Some? && found.Ok? && counted.Err? ==> reply == Failed("Error al obtener usuarios", counted.message)
    ensures request.Some? && found.Ok? && counted.Ok? ==>
      && reply.Listed? && reply.message == "Usuarios obtenidos exitosamente"
      && |reply.data| == |found.value|
      && (forall i :: 0 <= i < |found.value| ==> reply.data[i] == Stringified(found.value[i]))
      && reply.pagination == Pagination(params.page, params.pageSize, counted.value, CeilDiv(counted.value, params.pageSize))
  {
    if PatternRejected(params.search, patternError) {
      request := None;
      reply := Failed("Error al obtener usuarios", patternError.value);
      return;
    }
    var skipIndex := (params.page - 1) * params.pageSize;
    var filterQuery := SearchFilter(params.search);
    request := Some(FindRequest(filterQuery, skipIndex, params.pageSize));
    match found
    case Err(e) =>
      reply := Failed("Error al obtener usuarios", e);
    case Ok(docs) =>
      match counted
      case Err(e) =>
        reply := Failed("Error al obtener usuarios", e);
      case Ok(total) =>
        var users := new User[|docs|](i requires 0 <= i < |docs| => docs[i]);
        StringifyIds(users);
        reply := Listed("Usuarios obtenidos exitosamente", users[..],
                        Pagination(params.page, params.pageSize, total, (total + params.pageSize - 1) / params.pageSize));
  }

  /**
   * The page count covers the collection exactly: the last page starts before the end of the
   * collection and the page after it starts at or past the end.
   */
  lemma LastPageIsLast(params: PaginationParams, total: nat)
    requires ValidParams(params)
    ensures var last := CeilDiv(total, params.pageSize);
      total > 0 ==> Skip(params.(page := last)) < total <= Skip(params.(page := last + 1))
  {
    var last := CeilDiv(total, params.pageSize);
    CeilDivIsCeiling(total, params.pageSize);
    assert Skip(params.(page := last + 1)) == last * params.pageSize;
  }
}
