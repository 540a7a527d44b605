/**
 * The employee controller over the relational store: the list endpoint builds a
 * parameterised SELECT from the optional filters, the create endpoint checks the name and
 * duplicates before an INSERT over the body's keys, and the update endpoint checks the body,
 * the row and duplicates before an UPDATE over the body's keys. Every statement is a query
 * text with `?` placeholders plus the list of parameters bound to them.
 */
module EmpleadoController {
  import opened Wrappers
  import opened JsValues
  import opened Digits
  import JsNumbers

  /**
   * A piece of statement text: fixed SQL as the controller writes it, a `?` placeholder, or a
   * column name taken from the request body's keys.
   */
  datatype Token = Sql(text: string) | Mark | Column(name: string)

  /** A statement sent to the store: its text and the parameters bound to its placeholders, in order. */
  datatype Query = Query(sql: seq<Token>, params: seq<Value>)

  /** The text the store receives. */
  function Render(sql: seq<Token>): string {
    if sql == [] then ""
    else (match sql[0] case Sql(t) => t case Mark => "?" case Column(n) => n) + Render(sql[1..])
  }

  /** An HTTP response: status, the JSON `success` flag, `message` and `data` when present, and `error`. */
  datatype Response = Response(status: nat, success: bool, message: Option<string>, data: Value, error: Option<string>)

  /** The messages the endpoints answer with. */
  const ListFailed: string := "Error al obtener los empleados"
  const MissingFields: string := "Faltan campos requeridos"
  const DuplicateOnCreate: string := "Ya existe un empleado con el mismo email o DNI"
  const Created: string := "Empleado creado exitosamente"
  const CreateFailed: string := "Error al crear el empleado"
  const NothingToUpdate: string := "No se proporcionaron datos para actualizar"
  const DuplicateOnUpdate: string := "El email o DNI ya está en uso por otro empleado"
  const Updated: string := "Empleado actualizado exitosamente"
  const UpdateFailed: string := "Error al actualizar el empleado"

  /** The number of `?` placeholders written into a statement. */
  function Placeholders(sql: seq<Token>): nat {
    multiset(sql)[Mark]
  }

  /** A statement whose placeholders and parameters match one for one. */
  predicate WellBound(q: Query) {
    Placeholders(q.sql) == |q.params|
  }

  /** `items.join(sep)` over pieces of text. */
  function Join(items: seq<seq<Token>>, sep: seq<Token>): seq<Token> {
    if items == [] then []
    else if |items| == 1 then items[0]
    else items[0] + sep + Join(items[1..], sep)
  }

  /** The placeholders of a join are those of its items, when the separator has none. */
  lemma {:induction false} PlaceholdersJoin(items: seq<seq<Token>>, sep: seq<Token>, each: nat)
    requires Placeholders(sep) == 0
    requires forall i :: 0 <= i < |items| ==> Placeholders(items[i]) == each
    ensures Placeholders(Join(items, sep)) == |items| * each
  {
    if |items| > 1 {
      PlaceholdersJoin(items[1..], sep, each);
      assert Join(items, sep) == items[0] + sep + Join(items[1..], sep);
      var n := |items| - 1;
      assert (n + 1) * each == each + n * each;
    }
  }

  /**
   * The `?` the driver counts: the placeholders plus every `?` inside a column name, since the
   * driver substitutes parameters into the rendered text. The fixed SQL fragments contain none.
   */
  function DriverMarks(sql: seq<Token>): nat {
    if sql == [] then 0
    else (match sql[0] case Sql(_) => 0 case Mark => 1 case Column(n) => multiset(n)['?']) + DriverMarks(sql[1..])
  }

  lemma {:induction false} DriverMarksAppend(a: seq<Token>, b: seq<Token>)
    ensures DriverMarks(a + b) == DriverMarks(a) + DriverMarks(b)
  {
    if a != [] {
      assert (a + b)[0] == a[0];
      assert (a + b)[1..] == a[1..] + b;
      DriverMarksAppend(a[1..], b);
    } else {
      assert a + b == b;
    }
  }

  /** A token that adds no `?` beyond its own placeholder. */
  predicate Plain(t: Token) {
    t.Column? ==> '?' !in t.name
  }

  /** No column name in the statement contains a `?`. */
  predicate PlainColumns(sql: seq<Token>) {
    forall t :: t in sql ==> Plain(t)
  }

  /** With plain column names the driver sees exactly the placeholders. */
  lemma {:induction false} DriverMarksPlain(sql: seq<Token>)
    requires PlainColumns(sql)
    ensures DriverMarks(sql) == Placeholders(sql)
  {
    if sql != [] {
      assert sql[0] in sql;
      DriverMarksPlain(sql[1..]);
      assert sql == [sql[0]] + sql[1..];
    }
  }

  /** A join of plain pieces with a plain separator is plain. */
  lemma {:induction false} PlainJoin(items: seq<seq<Token>>, sep: seq<Token>)
    requires PlainColumns(sep)
    requires forall i :: 0 <= i < |items| ==> PlainColumns(items[i])
    ensures PlainColumns(Join(items, sep))
  {
    if |items| > 1 {
      PlainJoin(items[1..], sep);
    }
  }

  // ---------------------------------------------------------------- getEmpleados

  /** The query-string filters of the list endpoint; each is applied only when present and non-empty. */
  datatype Filtros = Filtros(departamento: Option<string>, cargo: Option<string>, estado: Option<string>, busqueda: Option<string>)

  /** JavaScript truthiness of an optional query-string value. */
  predicate Given(o: Option<string>) {
    o.Some? && o.value != ""
  }

  const SelectAll: seq<Token> := [Sql("SELECT * FROM empleados WHERE 1=1")]
  const OrderBy: seq<Token> := [Sql(" ORDER BY apellido, nombre")]
  const SearchClause: seq<Token> :=
    [Sql(" AND (nombre LIKE "), Mark, Sql(" OR apellido LIKE "), Mark, Sql(" OR email LIKE "), Mark,
     Sql(" OR dni LIKE "), Mark, Sql(")")]

  /** `%term%`: the LIKE pattern of a search term. */
  function Like(term: string): Value {
    Str("%" + term + "%")
  }

  /** A filter's contribution: its clause and the parameters the clause binds. */
  datatype Clause = Clause(sql: seq<Token>, params: seq<Value>)

  /**
   * The filter clauses the list endpoint can add, in their fixed order, each with the
   * condition under which it is added.
   */
  function FilterTable(f: Filtros): seq<(bool, Clause)> {
    var term := Like(f.busqueda.GetOr(""));
    [ (Given(f.departamento), Clause([Sql(" AND departamento = "), Mark], [Str(f.departamento.GetOr(""))])),
      (Given(f.cargo), Clause([Sql(" AND cargo = "), Mark], [Str(f.cargo.GetOr(""))])),
      (Given(f.estado), Clause([Sql(" AND estado = "), Mark], [Str(f.estado.GetOr(""))])),
      (Given(f.busqueda), Clause(SearchClause, [term, term, term, term])) ]
  }

  /** The clauses of the table whose condition holds, in table order. */
  function Applied(table: seq<(bool, Clause)>): seq<Clause> {
    if table == [] then []
    else Applied(table[..|table| - 1]) + (if table[|table| - 1].0 then [table[|table| - 1].1] else [])
  }

  function ClauseSql(cs: seq<Clause>): seq<Token> {
    if cs == [] then [] else ClauseSql(cs[..|cs| - 1]) + cs[|cs| - 1].sql
  }

  function ClauseParams(cs: seq<Clause>): seq<Value> {
    if cs == [] then [] else ClauseParams(cs[..|cs| - 1]) + cs[|cs| - 1].params
  }

  /** The statement of the list endpoint: the base SELECT, the applied clauses in order, the ORDER BY. */
  function FilterQuery(f: Filtros): Query {
    var cs := Applied(FilterTable(f));
    Query(SelectAll + ClauseSql(cs) + OrderBy, ClauseParams(cs))
  }

  /** A clause that binds exactly its placeholders. */
  predicate ClauseBound(c: Clause) {
    Placeholders(c.sql) == |c.params|
  }

  /** Every clause of the table binds exactly its placeholders. */
  lemma FilterTableBound(f: Filtros)
    ensures forall i :: 0 <= i < |FilterTable(f)| ==> ClauseBound(FilterTable(f)[i].1)
  {
  }

  /** Applying clauses that each bind exactly their placeholders gives text and parameters that match. */
  lemma {:induction false} AppliedBound(table: seq<(bool, Clause)>)
    requires forall i :: 0 <= i < |table| ==> ClauseBound(table[i].1)
    ensures Placeholders(ClauseSql(Applied(table))) == |ClauseParams(Applied(table))|
  {
    if table != [] {
      var init := table[..|table| - 1];
      AppliedBound(init);
      var last := table[|table| - 1];
      if last.0 {
        ClauseSnoc(Applied(init), last.1);
      } else {
        assert Applied(table) == Applied(init);
      }
    }
  }

  lemma ClauseSnoc(cs: seq<Clause>, c: Clause)
    ensures ClauseSql(cs + [c]) == ClauseSql(cs) + c.sql
    ensures ClauseParams(cs + [c]) == ClauseParams(cs) + c.params
  {
    assert (cs + [c])[..|cs|] == cs;
  }

  /** The statement so far holds the base SELECT and the clauses of the first k entries of the table whose condition holds. */
  ghost predicate BuiltUpTo(table: seq<(bool, Clause)>, k: nat, sql: seq<Token>, params: seq<Value>)
    requires k <= |table|
  {
    sql == SelectAll + ClauseSql(Applied(table[..k])) && params == ClauseParams(Applied(table[..k]))
  }

  /** Each entry, in table order, contributes its clause exactly when its condition holds. */
  lemma BuiltStep(table: seq<(bool, Clause)>, k: nat, given: bool, c: Clause,
                  sql: seq<Token>, params: seq<Value>, sql': seq<Token>, params': seq<Value>)
    requires k < |table| && table[k] == (given, c) && BuiltUpTo(table, k, sql, params)
    requires given ==> sql' == sql + c.sql && params' == params + c.params
    requires !given ==> sql' == sql && params' == params
    ensures BuiltUpTo(table, k + 1, sql', params')
  {
    AppliedStep(table, k);
    if given {
      assert SelectAll + (ClauseSql(Applied(table[..k])) + c.sql)
          == SelectAll + ClauseSql(Applied(table[..k])) + c.sql;
    }
  }

  /** Entry k of a table adds its clause's tokens and parameters exactly when its condition holds. */
  lemma AppliedStep(table: seq<(bool, Clause)>, k: nat)
    requires k < |table|
    ensures table[k].0 ==> ClauseSql(Applied(table[..k + 1])) == ClauseSql(Applied(table[..k])) + table[k].1.sql
    ensures table[k].0 ==> ClauseParams(Applied(table[..k + 1])) == ClauseParams(Applied(table[..k])) + table[k].1.params
    ensures !table[k].0 ==> Applied(table[..k + 1]) == Applied(table[..k])
  {
    assert table[..k + 1][..k] == table[..k];
    if table[k].0 {
      ClauseSnoc(Applied(table[..k]), table[k].1);
    }
  }

  lemma BuiltStart(table: seq<(bool, Clause)>)
    ensures BuiltUpTo(table, 0, SelectAll, [])
  {
    assert table[..0] == [];
  }

  lemma BuiltDone(f: Filtros, sql: seq<Token>, params: seq<Value>)
    requires BuiltUpTo(FilterTable(f), 4, sql, params)
    ensures Query(sql + OrderBy, params) == FilterQuery(f)
  {
    assert FilterTable(f)[..4] == FilterTable(f);
  }

  /** For every combination of filters the list statement binds exactly as many parameters as it has placeholders. */
  lemma FilterQueryWellBound(f: Filtros)
    ensures WellBound(FilterQuery(f))
  {
    FilterTableBound(f);
    AppliedBound(FilterTable(f));
  }

  /** A search term is bound four times, last, as `%term%`: once for each of the four columns searched. */
  lemma SearchBindsTermLast(f: Filtros)
    requires Given(f.busqueda)
    ensures var term := Like(f.busqueda.value);
      var ps := FilterQuery(f).params;
      |ps| >= 4 && ps[|ps| - 4..] == [term, term, term, term]
  {
    var table := FilterTable(f);
    assert table[..|table| - 1] == table[..3];
  }

  /** Without filters the list statement is the base SELECT and the ORDER BY, with no parameters. */
  lemma NoFiltersSelectsAll(f: Filtros)
    requires !Given(f.departamento) && !Given(f.cargo) && !Given(f.estado) && !Given(f.busqueda)
    ensures FilterQuery(f) == Query(SelectAll + OrderBy, [])
  {
    var table := FilterTable(f);
    assert forall i :: 0 <= i < |table| ==> !table[i].0;
    AppliedNone(table);
    assert SelectAll + [] + OrderBy == SelectAll + OrderBy;
  }

  /** A table none of whose conditions holds applies no clause. */
  lemma {:induction false} AppliedNone(table: seq<(bool, Clause)>)
    requires forall i :: 0 <= i < |table| ==> !table[i].0
    ensures Applied(table) == []
  {
    if table != [] {
      AppliedNone(table[..|table| - 1]);
    }
  }

  /** `if (filter) { query += clause; params.push(...) }`: the clause and its parameters are appended only when the filter is given. */
  method AddFilter(sql: seq<Token>, params: seq<Value>, given: bool, c: Clause) returns (sql': seq<Token>, params': seq<Value>)
    ensures given ==> sql' == sql + c.sql && params' == params + c.params
    ensures !given ==> sql' == sql && params' == params
  {
    sql', params' := sql, params;
    if given {
      sql' := sql' + c.sql;
      params' := params' + c.params;
    }
  }

  /**
   * `getEmpleados`' statement, built as the source builds it: start from the base SELECT, then
   * for each filter present append its clause and push its parameters, then append the ORDER BY.
   */
  method BuildFilterQuery(f: Filtros) returns (q: Query)
    ensures q == FilterQuery(f)
    ensures WellBound(q)
  {
    var sql, params := ApplyFilters(f);
    BuiltDone(f, sql, params);
    sql := sql + OrderBy;
    q := Query(sql, params);
    FilterQueryWellBound(f);
  }

  /** The four `if (filter)` blocks of `getEmpleados`, in their order. */
  method ApplyFilters(f: Filtros) returns (sql: seq<Token>, params: seq<Value>)
    ensures BuiltUpTo(FilterTable(f), 4, sql, params)
  {
    ghost var table := FilterTable(f);
    BuiltStart(table);
    sql, params := FilterStep(table, 0, SelectAll, [], Given(f.departamento),
                              Clause([Sql(" AND departamento = "), Mark], [Str(f.departamento.GetOr(""))]));
    sql, params := FilterStep(table, 1, sql, params, Given(f.cargo),
                              Clause([Sql(" AND cargo = "), Mark], [Str(f.cargo.GetOr(""))]));
    sql, params := FilterStep(table, 2, sql, params, Given(f.estado),
                              Clause([Sql(" AND estado = "), Mark], [Str(f.estado.GetOr(""))]));
    var termino := Like(f.busqueda.GetOr(""));
    sql, params := FilterStep(table, 3, sql, params, Given(f.busqueda),
                              Clause(SearchClause, [termino, termino, termino, termino]));
  }

  /** One `if (filter)` block, as entry k of the filter table. */
  method FilterStep(ghost table: seq<(bool, Clause)>, k: nat, sql: seq<Token>, params: seq<Value>, given: bool, c: Clause)
    returns (sql': seq<Token>, params': seq<Value>)
    requires k < |table| && table[k] == (given, c) && BuiltUpTo(table, k, sql, params)
    ensures BuiltUpTo(table, k + 1, sql', params')
  {
    sql', params' := AddFilter(sql, params, given, c);
    BuiltStep(table, k, given, c, sql, params, sql', params');
  }

  /** `getEmpleados`: the filtered rows with 200, or 500 when the store raises. */
  method GetEmpleados(f: Filtros, rows: Result<seq<Object>>) returns (q: Query, response: Response)
    ensures q == FilterQuery(f) && WellBound(q)
    ensures rows.Ok? ==> response == Response(200, true, None, Rows(rows.value), None)
    ensures rows.Err? ==>
      response == Response(500, false, Some(ListFailed), Undefined, Some(rows.message))
  {
    q := BuildFilterQuery(f);
    match rows
    case Ok(empleados) =>
      response := Response(200, true, None, Rows(empleados), None);
    case Err(message) =>
      response := Response(500, false, Some(ListFailed), Undefined, Some(message));
  }

  /** The rows the store returns, as a JSON array of objects. */
  function Rows(rows: seq<Object>): (v: Value)
    ensures v.Arr? && |v.items| == |rows| && forall i :: 0 <= i < |rows| ==> v.items[i] == Obj(rows[i])
  {
    if rows == [] then Arr([]) else Arr([Obj(rows[0])] + Rows(rows[1..]).items)
  }

  // ---------------------------------------------------------------- createEmpleado

  const DuplicateSql: seq<Token> :=
    [Sql("SELECT COUNT(*) as count FROM empleados WHERE email = "), Mark, Sql(" OR dni = "), Mark]

  /** One column token per key, in key order. */
  function ColumnsOf(keys: seq<string>): (r: seq<seq<Token>>)
    ensures |r| == |keys| && forall i :: 0 <= i < |keys| ==> r[i] == [Column(keys[i])]
  {
    if keys == [] then [] else [[Column(keys[0])]] + ColumnsOf(keys[1..])
  }

  /** `Object.keys(body).join(', ')`: the column list. */
  function InsertColumns(keys: seq<string>): seq<Token> {
    Join(ColumnsOf(keys), [Sql(", ")])
  }

  /** `Object.keys(body).map(() => '?').join(', ')`: one placeholder per key. */
  function InsertMarks(n: nat): seq<Token> {
    Join(Repeat([Mark], n), [Sql(", ")])
  }

  /** `INSERT INTO empleados (k1, k2, ...) VALUES (?, ?, ...)` with the body's values in key order. */
  function InsertQuery(body: Object): Query {
    Query([Sql("INSERT INTO empleados (")] + InsertColumns(Keys(body)) + [Sql(") VALUES (")]
            + InsertMarks(|body|) + [Sql(")")],
          Values(body))
  }

  /** No key of the object contains a `?`. */
  predicate PlainKeys(body: Object) {
    forall i :: 0 <= i < |body| ==> '?' !in body[i].0
  }

  lemma ColumnsPieces(keys: seq<string>)
    ensures Placeholders(InsertColumns(keys)) == 0
    ensures (forall i :: 0 <= i < |keys| ==> '?' !in keys[i]) ==> PlainColumns(InsertColumns(keys))
  {
    var cols := ColumnsOf(keys);
    PlaceholdersJoin(cols, [Sql(", ")], 0);
    if forall i :: 0 <= i < |keys| ==> '?' !in keys[i] {
      PlainJoin(cols, [Sql(", ")]);
    }
  }

  lemma MarksPieces(n: nat)
    ensures Placeholders(InsertMarks(n)) == n && PlainColumns(InsertMarks(n))
  {
    PlaceholdersJoin(Repeat([Mark], n), [Sql(", ")], 1);
    PlainJoin(Repeat([Mark], n), [Sql(", ")]);
  }

  /** The INSERT has one placeholder per key of the body and binds one value per key. */
  lemma InsertQueryWellBound(body: Object)
    ensures WellBound(InsertQuery(body)) && |InsertQuery(body).params| == |body|
  {
    ColumnsPieces(Keys(body));
    MarksPieces(|body|);
  }

  /** The i-th value bound is the value of the i-th key, the column named i-th. */
  lemma InsertBindsByKey(body: Object)
    requires DistinctKeys(body)
    ensures forall i :: 0 <= i < |body| ==> InsertQuery(body).params[i] == Get(body, Keys(body)[i])
  {
    forall i | 0 <= i < |body|
      ensures InsertQuery(body).params[i] == Get(body, Keys(body)[i])
    {
      GetAt(body, i);
    }
  }

  /** With plain keys the driver counts exactly the placeholders of the INSERT. */
  lemma InsertDriverMarks(body: Object)
    requires PlainKeys(body)
    ensures DriverMarks(InsertQuery(body).sql) == |InsertQuery(body).params|
  {
    ColumnsPieces(Keys(body));
    MarksPieces(|body|);
    InsertQueryWellBound(body);
    DriverMarksPlain(InsertQuery(body).sql);
  }

  /** In an object with distinct keys, the i-th key reads the i-th value. */
  lemma {:induction false} GetAt(o: Object, i: nat)
    requires DistinctKeys(o) && i < |o|
    ensures Get(o, o[i].0) == o[i].1
  {
    if i > 0 {
      GetAt(o[1..], i - 1);
    }
  }

  /**
   * The body's keys become column names as they are: a key that contains `?` adds a `?` the
   * driver binds a value to, so the values shift by one against their columns.
   */
  lemma InsertKeyCanAddPlaceholder()
    ensures var q := InsertQuery([("?", Str("Ana"))]);
      WellBound(q) && DriverMarks(q.sql) == |q.params| + 1
  {
    var body: Object := [("?", Str("Ana"))];
    InsertQueryWellBound(body);
    InsertOneKey("?", Str("Ana"));
    assert multiset("?")['?'] == 1;
    OneColumnMarks("?");
  }

  /** The INSERT for a body of one property: its key as the one column, one placeholder. */
  lemma InsertOneKey(key: string, v: Value)
    ensures InsertQuery([(key, v)]).sql == [Sql("INSERT INTO empleados ("), Column(key), Sql(") VALUES ("), Mark, Sql(")")]
  {
    assert Keys([(key, v)]) == [key];
    assert InsertColumns([key]) == [Column(key)];
    assert InsertMarks(1) == [Mark];
  }

  /** The driver counts the `?` of the one column name, plus the one placeholder. */
  lemma OneColumnMarks(key: string)
    ensures DriverMarks([Sql("INSERT INTO empleados ("), Column(key), Sql(") VALUES ("), Mark, Sql(")")]) == multiset(key)['?'] + 1
  {
    var sql := [Sql("INSERT INTO empleados ("), Column(key), Sql(") VALUES ("), Mark, Sql(")")];
    assert DriverMarks(sql[4..]) == 0 by {
      assert sql[4..][1..] == [];
    }
    assert DriverMarks(sql[3..]) == 1 by {
      assert sql[3..][1..] == sql[4..];
    }
    assert DriverMarks(sql[2..]) == 1 by {
      assert sql[2..][1..] == sql[3..];
    }
    assert DriverMarks(sql[1..]) == multiset(key)['?'] + 1 by {
      assert sql[1..][1..] == sql[2..];
    }
  }

  /**
   * `createEmpleado`, with the store's answers as inputs: the duplicate count and the id the
   * INSERT receives (or the error either raises). Returns the statements sent, in order, and
   * the response.
   */
  method CreateEmpleado(body: Object, duplicates: Result<nat>, inserted: Result<nat>)
    returns (queries: seq<Query>, response: Response)
    ensures !Truthy(Get(body, "nombre")) ==>
      queries == [] && response == Response(400, false, Some(MissingFields), Undefined, None)
    ensures Truthy(Get(body, "nombre")) ==>
      |queries| >= 1 && queries[0] == Query(DuplicateSql, [Get(body, "email"), Get(body, "dni")]) && WellBound(queries[0])
    ensures Truthy(Get(body, "nombre")) && duplicates.Ok? && duplicates.value > 0 ==>
      |queries| == 1 && response == Response(409, false, Some(DuplicateOnCreate), Undefined, None)
    ensures Truthy(Get(body, "nombre")) && duplicates == Ok(0) ==>
      queries == [Query(DuplicateSql, [Get(body, "email"), Get(body, "dni")]), InsertQuery(body)]
    ensures Truthy(Get(body, "nombre")) && duplicates == Ok(0) && inserted.Ok? ==>
      response == Response(201, true, Some(Created), Obj(Spread([("id", Num(inserted.value))], body)), None)
    ensures Truthy(Get(body, "nombre")) && duplicates.Err? ==>
      |queries| == 1 && response == Response(500, false, Some(CreateFailed), Undefined, Some(duplicates.message))
    ensures Truthy(Get(body, "nombre")) && duplicates == Ok(0) && inserted.Err? ==>
      response == Response(500, false, Some(CreateFailed), Undefined, Some(inserted.message))
  {
    if !Truthy(Get(body, "nombre")) {
      return [], Response(400, false, Some(MissingFields), Undefined, None);
    }
    queries, response := CheckAndInsert(body, duplicates, inserted);
  }

  /** `createEmpleado` past the required-field check: the duplicate count, then the INSERT. */
  method CheckAndInsert(body: Object, duplicates: Result<nat>, inserted: Result<nat>)
    returns (queries: seq<Query>, response: Response)
    ensures |queries| >= 1 && queries[0] == Query(DuplicateSql, [Get(body, "email"), Get(body, "dni")]) && WellBound(queries[0])
    ensures duplicates.Ok? && duplicates.value > 0 ==>
      |queries| == 1 && response == Response(409, false, Some(DuplicateOnCreate), Undefined, None)
    ensures duplicates == Ok(0) ==>
      queries == [Query(DuplicateSql, [Get(body, "email"), Get(body, "dni")]), InsertQuery(body)]
    ensures duplicates == Ok(0) && inserted.Ok? ==>
      response == Response(201, true, Some(Created), Obj(Spread([("id", Num(inserted.value))], body)), None)
    ensures duplicates.Err? ==>
      |queries| == 1 && response == Response(500, false, Some(CreateFailed), Undefined, Some(duplicates.message))
    ensures duplicates == Ok(0) && inserted.Err? ==>
      response == Response(500, false, Some(CreateFailed), Undefined, Some(inserted.message))
  {
    queries := [Query(DuplicateSql, [Get(body, "email"), Get(body, "dni")])];
    DuplicateSqlBound(Get(body, "email"), Get(body, "dni"));
    match duplicates
    case Err(message) =>
      response := Response(500, false, Some(CreateFailed), Undefined, Some(message));
    case Ok(count) =>
      if count > 0 {
        response := Response(409, false, Some(DuplicateOnCreate), Undefined, None);
      } else {
        queries := queries + [InsertQuery(body)];
        match inserted
        case Err(message) =>
          response := Response(500, false, Some(CreateFailed), Undefined, Some(message));
        case Ok(insertId) =>
          response := Response(201, true, Some(Created), Obj(Spread([("id", Num(insertId))], body)), None);
      }
  }

  /** The duplicate check of a creation binds the email and the DNI, one per placeholder. */
  lemma DuplicateSqlBound(email: Value, dni: Value)
    ensures WellBound(Query(DuplicateSql, [email, dni]))
  {
    assert DuplicateSql == [Sql("SELECT COUNT(*) as count FROM empleados WHERE email = ")] + [Mark] + [Sql(" OR dni = ")] + [Mark];
  }

  /**
   * The created employee reads as the body, except that `id` is the store's id unless the body
   * itself carries an `id`.
   */
  lemma CreatedData(body: Object, insertId: nat, k: string)
    requires DistinctKeys(body)
    ensures Get(Spread([("id", Num(insertId))], body), k) ==
      if Has(body, k) then Get(body, k) else if k == "id" then Num(insertId) else Undefined
  {
    SpreadGet([("id", Num(insertId))], body, k);
    assert Keys([("id", Num(insertId))]) == ["id"];
  }

  // ---------------------------------------------------------------- updateEmpleado

  const ExistsSql: seq<Token> := [Sql("SELECT * FROM empleados WHERE id = "), Mark]
  const CheckPrefix: seq<Token> := [Sql("SELECT COUNT(*) as count FROM empleados WHERE id != "), Mark, Sql(" AND (")]

  /**
   * The duplicate check of an update, sent only when the body gives an email or a DNI: rows
   * other than `id` whose email equals the given one, whose DNI equals the given one, or either.
   */
  function DuplicateCheckQuery(id: string, body: Object): Query
    requires Truthy(Get(body, "email")) || Truthy(Get(body, "dni"))
  {
    var email := Get(body, "email");
    var dni := Get(body, "dni");
    if Truthy(email) && Truthy(dni) then
      Query(CheckPrefix + [Sql("email = "), Mark] + [Sql(" OR ")] + [Sql("dni = "), Mark] + [Sql(")")], [Str(id)] + [email] + [dni])
    else if Truthy(email) then
      Query(CheckPrefix + [Sql("email = "), Mark] + [Sql(")")], [Str(id)] + [email])
    else
      Query(CheckPrefix + [Sql("dni = "), Mark] + [Sql(")")], [Str(id)] + [dni])
  }

  /** The check binds the id and then the email and/or DNI given, one parameter per placeholder. */
  lemma DuplicateCheckWellBound(id: string, body: Object)
    requires Truthy(Get(body, "email")) || Truthy(Get(body, "dni"))
    ensures WellBound(DuplicateCheckQuery(id, body))
    ensures DuplicateCheckQuery(id, body).params[0] == Str(id)
    ensures |DuplicateCheckQuery(id, body).params| ==
      1 + (if Truthy(Get(body, "email")) then 1 else 0) + (if Truthy(Get(body, "dni")) then 1 else 0)
  {
  }

  /** The duplicate check, built as the source builds it: text appended and parameters pushed step by step. */
  method BuildDuplicateCheck(id: string, body: Object) returns (q: Query)
    requires Truthy(Get(body, "email")) || Truthy(Get(body, "dni"))
    ensures q == DuplicateCheckQuery(id, body)
  {
    var email, dni := Truthy(Get(body, "email")), Truthy(Get(body, "dni"));
    var checkSql := CheckPrefix;
    var checkParams: seq<Value> := [Str(id)];
    if email {
      checkSql := checkSql + [Sql("email = "), Mark];
      checkParams := checkParams + [Get(body, "email")];
    }
    if dni {
      if email {
        checkSql := checkSql + [Sql(" OR ")];
      }
      checkSql := checkSql + [Sql("dni = "), Mark];
      checkParams := checkParams + [Get(body, "dni")];
    }
    checkSql := checkSql + [Sql(")")];
    q := Query(checkSql, checkParams);
  }

  function Assignments(keys: seq<string>): (r: seq<seq<Token>>)
    ensures |r| == |keys| && forall i :: 0 <= i < |keys| ==> r[i] == [Column(keys[i]), Sql(" = "), Mark]
  {
    if keys == [] then [] else [[Column(keys[0]), Sql(" = "), Mark]] + Assignments(keys[1..])
  }

  /** `Object.keys(body).map(key => `${key} = ?`).join(', ')`: one assignment per key. */
  function UpdatePairs(keys: seq<string>): seq<Token> {
    Join(Assignments(keys), [Sql(", ")])
  }

  /** `UPDATE empleados SET k1 = ?, k2 = ?, ... WHERE id = ?` with the body's values and then the id. */
  function UpdateQuery(id: string, body: Object): Query {
    Query([Sql("UPDATE empleados SET ")] + UpdatePairs(Keys(body)) + [Sql(" WHERE id = "), Mark], Values(body) + [Str(id)])
  }

  lemma PairsPieces(keys: seq<string>)
    ensures Placeholders(UpdatePairs(keys)) == |keys|
    ensures (forall i :: 0 <= i < |keys| ==> '?' !in keys[i]) ==> PlainColumns(UpdatePairs(keys))
  {
    var pairs := Assignments(keys);
    var sep := [Sql(", ")];
    assert Placeholders(sep) == 0 && PlainColumns(sep);
    forall i | 0 <= i < |pairs|
      ensures Placeholders(pairs[i]) == 1
    {
      AssignmentPieces(keys[i]);
    }
    PlaceholdersJoin(pairs, sep, 1);
    if forall i :: 0 <= i < |keys| ==> '?' !in keys[i] {
      forall i | 0 <= i < |pairs|
        ensures PlainColumns(pairs[i])
      {
        AssignmentPieces(keys[i]);
      }
      PlainJoin(pairs, sep);
    }
  }

  /** One `key = ?`: a single placeholder, and plain when the key has no `?`. */
  lemma AssignmentPieces(key: string)
    ensures Placeholders([Column(key), Sql(" = "), Mark]) == 1
    ensures '?' !in key ==> PlainColumns([Column(key), Sql(" = "), Mark])
  {
    assert multiset([Column(key), Sql(" = "), Mark]) == multiset{Column(key), Sql(" = "), Mark};
  }

  /** The UPDATE has one `key = ?` per key and one for the id, and binds the values in key order and then the id. */
  lemma UpdateQueryWellBound(id: string, body: Object)
    ensures WellBound(UpdateQuery(id, body))
    ensures |UpdateQuery(id, body).params| == |body| + 1 && UpdateQuery(id, body).params[|body|] == Str(id)
  {
    PairsPieces(Keys(body));
  }

  /** With plain keys the driver counts exactly the placeholders of the UPDATE. */
  lemma UpdateDriverMarks(id: string, body: Object)
    requires PlainKeys(body)
    ensures DriverMarks(UpdateQuery(id, body).sql) == |UpdateQuery(id, body).params|
  {
    PairsPieces(Keys(body));
    UpdateQueryWellBound(id, body);
    DriverMarksPlain(UpdateQuery(id, body).sql);
  }

  /** `Number(id)` for a route parameter: its integer value, or NaN. */
  function NumberOf(id: string): (v: Value)
    ensures v.Num? || v == NaN
    ensures v.Num? <==> JsNumbers.StringToNumber(id).Some?
  {
    match JsNumbers.StringToNumber(id)
    case Some(n) => Num(n)
    case None => NaN
  }

  /** The store returned the row under the id. */
  predicate Found(existing: Result<seq<Object>>) {
    existing.Ok? && existing.value != []
  }

  /** The body gives an email or a DNI, so the update checks them against the other rows. */
  predicate ChecksDuplicates(body: Object) {
    Truthy(Get(body, "email")) || Truthy(Get(body, "dni"))
  }

  /**
   * `updateEmpleado`, with the store's answers as inputs: the rows found under the id, the
   * duplicate count and whether the UPDATE raised. Returns the statements sent, in order, and
   * the response.
   */
  method UpdateEmpleado(id: string, body: Object, existing: Result<seq<Object>>, duplicates: Result<nat>, updated: Result<()>)
    returns (queries: seq<Query>, response: Response)
    ensures |body| == 0 ==>
      queries == [] && response == Response(400, false, Some(NothingToUpdate), Undefined, None)
    ensures |body| > 0 ==> |queries| >= 1 && queries[0] == Query(ExistsSql, [Str(id)])
    ensures |body| > 0 && existing.Err? ==>
      |queries| == 1 && response == Response(500, false, Some(UpdateFailed), Undefined, Some(existing.message))
    ensures |body| > 0 && existing == Ok([]) ==>
      |queries| == 1 && response == Response(404, false, Some("No se encontró empleado con ID " + id), Undefined, None)
    ensures |body| > 0 && Found(existing) && ChecksDuplicates(body) ==>
      |queries| >= 2 && queries[1] == DuplicateCheckQuery(id, body)
    ensures |body| > 0 && Found(existing) && ChecksDuplicates(body) && duplicates.Err? ==>
      |queries| == 2 && response == Response(500, false, Some(UpdateFailed), Undefined, Some(duplicates.message))
    ensures |body| > 0 && Found(existing) && ChecksDuplicates(body) && duplicates.Ok? && duplicates.value > 0 ==>
      |queries| == 2 && response == Response(409, false, Some(DuplicateOnUpdate), Undefined, None)
    ensures |body| > 0 && Found(existing) && (!ChecksDuplicates(body) || duplicates == Ok(0)) ==>
      && |queries| == (if ChecksDuplicates(body) then 3 else 2)
      && queries[|queries| - 1] == UpdateQuery(id, body)
    ensures |body| > 0 && Found(existing) && (!ChecksDuplicates(body) || duplicates == Ok(0)) && updated.Err? ==>
      response == Response(500, false, Some(UpdateFailed), Undefined, Some(updated.message))
    ensures |body| > 0 && Found(existing) && (!ChecksDuplicates(body) || duplicates == Ok(0)) && updated.Ok? ==>
      response == Response(200, true, Some(Updated),
                           Obj(Spread(Spread([("id", NumberOf(id))], existing.value[0]), body)), None)
  {
    if |body| == 0 {
      return [], Response(400, false, Some(NothingToUpdate), Undefined, None);
    }
    queries := [Query(ExistsSql, [Str(id)])];
    match existing
    case Err(message) =>
      return queries, Response(500, false, Some(UpdateFailed), Undefined, Some(message));
    case Ok(found) =>
      if found == [] {
        return queries, Response(404, false, Some("No se encontró empleado con ID " + id), Undefined, None);
      }
      if ChecksDuplicates(body) {
        var check := BuildDuplicateCheck(id, body);
        queries := queries + [check];
        match duplicates
        case Err(message) =>
          return queries, Response(500, false, Some(UpdateFailed), Undefined, Some(message));
        case Ok(count) =>
          if count > 0 {
            return queries, Response(409, false, Some(DuplicateOnUpdate), Undefined, None);
          }
      }
      queries := queries + [UpdateQuery(id, body)];
      match updated
      case Err(message) =>
        response := Response(500, false, Some(UpdateFailed), Undefined, Some(message));
      case Ok(_) =>
        response := Response(200, true, Some(Updated),
                             Obj(Spread(Spread([("id", NumberOf(id))], found[0]), body)), None);
  }

  /**
   * The updated employee reads as the body's fields over the stored row's fields over
   * `Number(id)`: later spreads win key by key.
   */
  lemma UpdatedData(id: string, row: Object, body: Object, k: string)
    requires DistinctKeys(row) && DistinctKeys(body)
    ensures Get(Spread(Spread([("id", NumberOf(id))], row), body), k) ==
      if Has(body, k) then Get(body, k)
      else if Has(row, k) then Get(row, k)
      else if k == "id" then NumberOf(id)
      else Undefined
  {
    SpreadGet(Spread([("id", NumberOf(id))], row), body, k);
    SpreadGet([("id", NumberOf(id))], row, k);
    assert Keys([("id", NumberOf(id))]) == ["id"];
  }
}
