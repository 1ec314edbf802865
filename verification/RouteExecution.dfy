/** Running a stored route (app/services/query_engine/dynamic_routes.py,
    app/api/v1/endpoints/dynamic_execute.py): authorisation, lookup, revalidation, pagination,
    binding, and the statements that reach the database. */
module RouteExecution {
  import opened Wrappers
  import opened DynamicParameters
  import opened SqlSafety
  import opened Strings
  import opened RouteSchema
  import opened RouteContracts
  import Table = MappingTable
  import Pii = PiiMapping
  import Permission = RoutePermission
  import Store = RouteStore

  // ---------- What is sent to the database ----------

  /** The statements built around a canonical text: itself, the count of its rows, one page of them. */
  datatype Statement = Plain(sql: string) | CountOf(sql: string) | PageOf(sql: string)

  datatype Call = Call(statement: Statement, values: map<string, Value>)

  function StatementText(statement: Statement): string {
    match statement
    case Plain(sql) => sql
    case CountOf(sql) => "SELECT COUNT(*) AS total FROM (" + sql + ") AS dynamic_route_count"
    case PageOf(sql) =>
      "SELECT * FROM (" + sql + ") AS dynamic_route_data LIMIT :" + SIZE_KEY + " OFFSET :" + OFFSET_KEY
  }

  /** The placeholders of the canonical text, and the two that the page wrapper adds. */
  function InnerPlaceholders(lib: SqlLibrary, statement: Statement, dialect: Dialect): Option<set<string>> {
    match lib.parseOne(statement.sql, dialect)
    case None => None
    case Some(tree) => Some(Placeholders(tree) + if statement.PageOf? then {SIZE_KEY, OFFSET_KEY} else {})
  }

  /** The parser sees in the text that is sent what the wrapper is meant to say. */
  predicate ReadsWrapper(lib: SqlLibrary, statement: Statement, dialect: Dialect) {
    var tree := lib.parseOne(StatementText(statement), dialect);
    tree.Some? && Some(Placeholders(tree.value)) == InnerPlaceholders(lib, statement, dialect)
  }

  /** The bound keys are exactly the placeholders of the text that is sent. */
  predicate BindsExactly(lib: SqlLibrary, call: Call, dialect: Dialect) {
    var tree := lib.parseOne(StatementText(call.statement), dialect);
    tree.Some? && Placeholders(tree.value) == call.values.Keys
  }

  /** One row of the count query, in column order; a value is None where int() would raise. */
  type CountRow = seq<(string, Option<int>)>

  /** What the database answers to every call of one request; None when the client raises. */
  datatype Database = Database(count: Call -> Option<seq<CountRow>>, rows: Call -> Option<seq<Pii.Cells>>)

  /** `number` is int() of a text of digits; `postgres` and `cache` tell what is configured. */
  datatype Environment = Environment(
    sql: SqlLibrary,
    lib: Library,
    number: string -> Option<int>,
    database: Database,
    postgres: bool,
    cache: Option<Pii.Cache>)

  datatype ExecuteError =
    | NoRoute
    | SqlFailed(sql: SqlError)
    | BadDefinitions
    | DefinitionOverflows
    | BadContract(contract: ContractError)
    | BadPagination(name: string)
    | BadParameters(parameter: ParameterError)
    | NoClient
    | ClientFailed
    | BadCount
    | NoMapper

  datatype Response =
    | Data(rows: seq<Pii.Cells>, missing: seq<Pii.Missing>)
    | Paged(rows: seq<Pii.Cells>, missing: seq<Pii.Missing>, total: int, page: int, size: int, totalPages: int)

  datatype Execution = Execution(result: Result<Response, ExecuteError>, sent: seq<Call>)

  // ---------- Pagination parameters ----------

  datatype Pagination = Pagination(page: int, size: int)

  function ParsePage(number: string -> Option<int>, params: QueryParams, name: string, default: int,
                     maximum: Option<int>): Option<int> {
    var values := GetList(params, name);
    if values == [] then Some(default)
    else if |values| != 1 then None
    else
      assert values[0] in values;
      match number(values[0].s)
      case None => None
      case Some(n) => if n < 1 || (maximum.Some? && n > maximum.value) then None else Some(n)
  }

  function WithoutPaging(params: QueryParams): QueryParams {
    if params == [] then []
    else (if params[0].0 in [PAGE, PAGE_SIZE] then [] else [params[0]]) + WithoutPaging(params[1..])
  }

  function ExtractPagination(number: string -> Option<int>, params: QueryParams, paginated: bool)
    : Result<(QueryParams, Option<Pagination>), ExecuteError>
  {
    if !paginated then Success((params, None))
    else
      match (ParsePage(number, params, PAGE, 1, None), ParsePage(number, params, PAGE_SIZE, 100, Some(1000)))
      case (None, _) => Failure(BadPagination(PAGE))
      case (_, None) => Failure(BadPagination(PAGE_SIZE))
      case (Some(page), Some(size)) => Success((WithoutPaging(params), Some(Pagination(page, size))))
  }

  // ---------- Execution ----------

  /** What the request is turned into before anything is sent. */
  datatype Prepared = Prepared(sql: string, values: map<string, Value>, pagination: Option<Pagination>)

  function Prepare(env: Environment, route: Store.Route, params: QueryParams): Result<Prepared, ExecuteError> {
    match Validated(env.sql, route.canonicalSql, route.dialect)
    case Failure(error) => Failure(SqlFailed(error))
    case Success(v) =>
      match CheckDefinitions(env.lib, route.params, 0)
      case DefaultRejected => Failure(BadDefinitions)
      case DefaultOverflows => Failure(DefinitionOverflows)
      case DefaultAccepted =>
        match ValidateContract(v.parameterNames, route.params)
        case Some(error) => Failure(BadContract(error))
        case None =>
          match ExtractPagination(env.number, params, route.paginated)
          case Failure(error) => Failure(error)
          case Success((rest, pagination)) =>
            match CastParameters(env.lib, route.params, CollectQuery(rest))
            case Failure(error) => Failure(BadParameters(error))
            case Success(values) =>
              if route.dialect.Postgres? && !env.postgres then Failure(NoClient)
              else Success(Prepared(v.canonicalSql, values, pagination))
  }

  /** `{**parameters, size, offset}`: the two reserved keys win. */
  function WithPage(values: map<string, Value>, size: int, offset: int): map<string, Value> {
    values[SIZE_KEY := Int(size)][OFFSET_KEY := Int(offset)]
  }

  function TotalOf(casefold: string -> string, row: CountRow): Option<int> {
    if row == [] then None
    else if casefold(row[0].0) == "total" then row[0].1
    else TotalOf(casefold, row[1..])
  }

  function ExtractTotal(casefold: string -> string, rows: seq<CountRow>): Option<int> {
    if |rows| != 1 then None else TotalOf(casefold, rows[0])
  }

  function Rules(column: string): Pii.Rules {
    [(column, Pii.ByTokenLength)]
  }

  function MapPii(env: Environment, route: Store.Route,
                  rows: seq<Pii.Cells>): Option<(seq<Pii.Cells>, seq<Pii.Missing>)> {
    if route.piiColumn.None? then Some((rows, []))
    else if env.cache.None? then None
    else Some((Pii.MapRows(rows, Rules(route.piiColumn.value), env.cache.value),
               Pii.Misses(rows, Rules(route.piiColumn.value), env.cache.value)))
  }

  function TotalPages(total: int, size: int): int
    requires size > 0
  {
    (total + size - 1) / size
  }

  function ExecuteData(env: Environment, route: Store.Route, p: Prepared): Execution {
    var call := Call(Plain(p.sql), p.values);
    var result :=
      match env.database.rows(call)
      case None => Failure(ClientFailed)
      case Some(rows) =>
        match MapPii(env, route, rows)
        case None => Failure(NoMapper)
        case Some((mapped, missing)) => Success(Data(mapped, missing));
    Execution(result, [call])
  }

  function ExecutePage(env: Environment, route: Store.Route, p: Prepared, page: int, size: int): Execution
    requires size > 0
  {
    var count := Call(CountOf(p.sql), p.values);
    var select := Call(PageOf(p.sql), WithPage(p.values, size, (page - 1) * size));
    match env.database.count(count)
    case None => Execution(Failure(ClientFailed), [count])
    case Some(counted) =>
      match ExtractTotal(env.lib.casefold, counted)
      case None => Execution(Failure(BadCount), [count])
      case Some(total) =>
        var result :=
          match env.database.rows(select)
          case None => Failure(ClientFailed)
          case Some(rows) =>
            match MapPii(env, route, rows)
            case None => Failure(NoMapper)
            case Some((mapped, missing)) =>
              Success(Paged(mapped, missing, total, page, size, TotalPages(total, size)));
        Execution(result, [count, select])
  }

  function Execute(env: Environment, route: Store.Route, params: QueryParams): Execution {
    match Prepare(env, route, params)
    case Failure(error) => Execution(Failure(error), [])
    case Success(p) =>
      if p.pagination.None? then ExecuteData(env, route, p)
      else ExecutePage(env, route, p, p.pagination.value.page, p.pagination.value.size)
  }

  // ---------- What a request is turned into ----------

  /** The value of a pagination parameter: the default if it is not given, and else the number of its one
      text, from 1 to the maximum. */
  predicate AsksFor(number: string -> Option<int>, values: seq<Value>, default: int, maximum: Option<int>, n: int) {
    || (values == [] && n == default)
    || (|values| == 1 && values[0].Text? && number(values[0].s) == Some(n)
        && 1 <= n && (maximum.Some? ==> n <= maximum.value))
  }

  ghost predicate AsksForNone(number: string -> Option<int>, values: seq<Value>, default: int, maximum: Option<int>) {
    forall n :: !AsksFor(number, values, default, maximum, n)
  }

  lemma {:induction false} PageIsAsked(number: string -> Option<int>, params: QueryParams, name: string, default: int,
                                       maximum: Option<int>, n: int)
    ensures ParsePage(number, params, name, default, maximum) == Some(n)
       <==> AsksFor(number, GetList(params, name), default, maximum, n)
  {
    var values := GetList(params, name);
    if |values| == 1 { assert values[0] in values; }
  }

  lemma {:induction false} NoPageIsAsked(number: string -> Option<int>, params: QueryParams, name: string, default: int,
                                         maximum: Option<int>)
    ensures ParsePage(number, params, name, default, maximum).None?
       <==> AsksForNone(number, GetList(params, name), default, maximum)
  {
    var page := ParsePage(number, params, name, default, maximum);
    if page.Some? {
      PageIsAsked(number, params, name, default, maximum, page.value);
    } else {
      forall n ensures !AsksFor(number, GetList(params, name), default, maximum, n) {
        PageIsAsked(number, params, name, default, maximum, n);
      }
    }
  }

  /** Pages count from 1, 100 rows are the default and 1000 the most; the page is looked at first. */
  lemma {:induction false} PaginationIsExact(number: string -> Option<int>, params: QueryParams, page: int, size: int)
    ensures ExtractPagination(number, params, false) == Success((params, None))
    ensures ExtractPagination(number, params, true) == Success((WithoutPaging(params), Some(Pagination(page, size))))
       <==> && AsksFor(number, GetList(params, "page"), 1, None, page)
            && AsksFor(number, GetList(params, "page_size"), 100, Some(1000), size)
    ensures ExtractPagination(number, params, true) == Failure(BadPagination("page"))
       <==> AsksForNone(number, GetList(params, "page"), 1, None)
    ensures ExtractPagination(number, params, true) == Failure(BadPagination("page_size"))
       <==> && !AsksForNone(number, GetList(params, "page"), 1, None)
            && AsksForNone(number, GetList(params, "page_size"), 100, Some(1000))
  {
    PageIsAsked(number, params, "page", 1, None, page);
    PageIsAsked(number, params, "page_size", 100, Some(1000), size);
    NoPageIsAsked(number, params, "page", 1, None);
    NoPageIsAsked(number, params, "page_size", 100, Some(1000));
    assert "page" != "page_size" by { assert |"page"| != |"page_size"|; }
  }

  predicate AsksForWindow(number: string -> Option<int>, paginated: bool, params: QueryParams,
                          window: Option<Pagination>)
  {
    if paginated then
      && window.Some?
      && AsksFor(number, GetList(params, "page"), 1, None, window.value.page)
      && AsksFor(number, GetList(params, "page_size"), 100, Some(1000), window.value.size)
    else window.None?
  }

  function Rest(paginated: bool, params: QueryParams): QueryParams {
    if paginated then WithoutPaging(params) else params
  }

  lemma {:induction false} WindowIsExact(number: string -> Option<int>, paginated: bool, params: QueryParams,
                                         window: Option<Pagination>)
    ensures ExtractPagination(number, params, paginated) == Success((Rest(paginated, params), window))
       <==> AsksForWindow(number, paginated, params, window)
    ensures var extracted := ExtractPagination(number, params, paginated);
            extracted.Success? ==> extracted.value.0 == Rest(paginated, params)
  {
    if window.Some? {
      PaginationIsExact(number, params, window.value.page, window.value.size);
    }
  }

  /** All that has to hold before anything is sent, and what is then sent with. */
  predicate IsPrepared(env: Environment, route: Store.Route, params: QueryParams, p: Prepared) {
    var rest := Rest(route.paginated, params);
    && Validated(env.sql, route.canonicalSql, route.dialect) == Success(ValidatedSql(p.sql, Names(route.params)))
    && (forall i :: 0 <= i < |route.params| ==> IsName(route.params[i].0))
    && AllAccepted(env.lib, route.params)
    && AsksForWindow(env.number, route.paginated, params, p.pagination)
    && CollectQuery(rest).Keys <= Names(route.params)
    && BindsAll(env.lib, route.params, CollectQuery(rest), p.values)
    && (route.dialect.Postgres? ==> env.postgres)
  }

  lemma {:induction false} BoundValuesAreUnique(lib: Library, defs: Definitions, supplied: map<string, seq<Value>>,
                                                values: map<string, Value>)
    requires DistinctNames(defs)
    ensures CastParameters(lib, defs, supplied) == Success(values)
       <==> supplied.Keys <= Names(defs) && BindsAll(lib, defs, supplied, values)
  {
    CastIsExact(lib, defs, supplied);
    if supplied.Keys <= Names(defs) && BindsAll(lib, defs, supplied, values) {
      var cast := CastParameters(lib, defs, supplied).value;
      forall name | name in values ensures name in cast && cast[name] == values[name] {
        var i :| 0 <= i < |defs| && defs[i].0 == name;
      }
      assert cast.Keys == values.Keys;
      assert cast == values;
    }
  }

  lemma {:induction false} ExactContract(v: ValidatedSql, defs: Definitions)
    ensures ValidateContract(v.parameterNames, defs).None?
       <==> v.parameterNames == Names(defs) && forall i :: 0 <= i < |defs| ==> IsName(defs[i].0)
  {
    ContractIsExact(v.parameterNames, defs);
    if v.parameterNames == Names(defs) {
      forall i | 0 <= i < |defs| ensures defs[i].0 in Names(defs) {
      }
      assert forall n :: n in Names(defs) ==> exists i :: 0 <= i < |defs| && defs[i].0 == n;
    }
  }

  /** A request is prepared exactly when all of that holds. */
  lemma {:induction false} PreparationIsExact(env: Environment, route: Store.Route, params: QueryParams, p: Prepared)
    requires DistinctNames(route.params)
    ensures Prepare(env, route, params) == Success(p) <==> IsPrepared(env, route, params, p)
  {
    var rest := Rest(route.paginated, params);
    CheckIsFirst(env.lib, route.params, 0);
    BoundValuesAreUnique(env.lib, route.params, CollectQuery(rest), p.values);
    var v := Validated(env.sql, route.canonicalSql, route.dialect);
    if v.Success? { ExactContract(v.value, route.params); }
    WindowIsExact(env.number, route.paginated, params, p.pagination);
  }

  // ---------- What is answered ----------

  /** The rows and misses that a route answers when the database serves these rows: as served without a
      PII column, and otherwise mapped by the token-length rule on that column. */
  ghost predicate AnswersRows(env: Environment, route: Store.Route, served: seq<Pii.Cells>,
                              rows: seq<Pii.Cells>, missing: seq<Pii.Missing>)
  {
    if route.piiColumn.None? then rows == served && missing == []
    else
      && env.cache.Some?
      && Pii.AreMapped(served, rows, [(route.piiColumn.value, Pii.ByTokenLength)], env.cache.value)
      && Pii.ListsMisses(served, [(route.piiColumn.value, Pii.ByTokenLength)], env.cache.value, missing)
  }

  lemma {:induction false} MapPiiAnswers(env: Environment, route: Store.Route, served: seq<Pii.Cells>)
    ensures MapPii(env, route, served).None? <==> route.piiColumn.Some? && env.cache.None?
    ensures MapPii(env, route, served).Some? ==>
              AnswersRows(env, route, served, MapPii(env, route, served).value.0, MapPii(env, route, served).value.1)
  {
    if route.piiColumn.Some? && env.cache.Some? {
      Pii.MappingIsExact(served, [(route.piiColumn.value, Pii.ByTokenLength)], env.cache.value);
    }
  }

  /** A data route sends its text once. It answers the served rows as AnswersRows says, and otherwise an
      error of the client or of the missing mapper. */
  lemma {:induction false} DataRouteAnswers(env: Environment, route: Store.Route, params: QueryParams)
    requires Prepare(env, route, params).Success? && !route.paginated
    ensures var p := Prepare(env, route, params).value;
            var e := Execute(env, route, params);
            && e.sent == [Call(Plain(p.sql), p.values)]
            && match env.database.rows(Call(Plain(p.sql), p.values))
               case None => e.result == Failure(ClientFailed)
               case Some(served) =>
                 if route.piiColumn.Some? && env.cache.None? then e.result == Failure(NoMapper)
                 else
                   && e.result.Success? && e.result.value.Data?
                   && AnswersRows(env, route, served, e.result.value.rows, e.result.value.missing)
  {
    var p := Prepare(env, route, params).value;
    PreparedMeans(env, route, params);
    match env.database.rows(Call(Plain(p.sql), p.values)) {
      case None =>
      case Some(served) => MapPiiAnswers(env, route, served);
    }
  }

  /** The total is the value of the first column that is called total, in any case. */
  lemma {:induction false} TotalIsFirstMatch(casefold: string -> string, row: CountRow)
    ensures TotalOf(casefold, row).Some? ==>
              exists i :: 0 <= i < |row| && FirstTotal(casefold, row, i) && row[i].1 == TotalOf(casefold, row)
    ensures TotalOf(casefold, row).None? ==>
              forall i :: 0 <= i < |row| && FirstTotal(casefold, row, i) ==> row[i].1.None?
  {
    if row == [] {
    } else {
      TotalIsFirstMatch(casefold, row[1..]);
      if casefold(row[0].0) == "total" {
        assert FirstTotal(casefold, row, 0);
      } else {
        forall i | 0 <= i < |row|
          ensures FirstTotal(casefold, row, i) <==> i > 0 && FirstTotal(casefold, row[1..], i - 1)
        {
          if i > 0 && FirstTotal(casefold, row[1..], i - 1) {
            forall j | 0 <= j < i ensures casefold(row[j].0) != "total" {
              if j > 0 { assert row[1..][j - 1] == row[j]; }
            }
          }
          if FirstTotal(casefold, row, i) && i > 0 {
            forall j | 0 <= j < i - 1 ensures casefold(row[1..][j].0) != "total" {
              assert row[1..][j] == row[j + 1];
            }
          }
        }
      }
    }
  }

  predicate FirstTotal(casefold: string -> string, row: CountRow, i: nat)
    requires i < |row|
  {
    casefold(row[i].0) == "total" && forall j :: 0 <= j < i ==> casefold(row[j].0) != "total"
  }

  /** The text limits the rows to the value bound to one name, behind the offset bound to another. */
  predicate LimitsTo(call: Call, inner: string, limit: string, offset: string, size: int, start: int) {
    && StatementText(call.statement)
       == "SELECT * FROM (" + inner + ") AS dynamic_route_data LIMIT :" + limit + " OFFSET :" + offset
    && limit in call.values && call.values[limit] == Int(size)
    && offset in call.values && call.values[offset] == Int(start)
  }

  /** The select of a page limits its rows to the size, behind the rows of the pages before, and leaves
      all other values as they are bound. */
  lemma {:induction false} PageTextBindsItsWindow(sql: string, values: map<string, Value>, page: int, size: int)
    ensures var call := Call(PageOf(sql), WithPage(values, size, (page - 1) * size));
            && LimitsTo(call, sql, SIZE_KEY, OFFSET_KEY, size, (page - 1) * size)
            && call.values.Keys == values.Keys + {SIZE_KEY, OFFSET_KEY}
            && forall name :: name in values && name != SIZE_KEY && name != OFFSET_KEY ==>
                 call.values[name] == values[name]
  {
  }

  /** A paginated route counts first and selects its window behind a valid total only. */
  lemma {:induction false} PagedRouteAnswers(env: Environment, route: Store.Route, params: QueryParams)
    requires Prepare(env, route, params).Success? && route.paginated
    ensures Prepare(env, route, params).value.pagination.Some?
    ensures var p := Prepare(env, route, params).value;
            var (page, size) := (p.pagination.value.page, p.pagination.value.size);
            var e := Execute(env, route, params);
            var count := Call(CountOf(p.sql), p.values);
            var select := Call(PageOf(p.sql), WithPage(p.values, size, (page - 1) * size));
            match env.database.count(count)
            case None => e == Execution(Failure(ClientFailed), [count])
            case Some(counted) =>
              if |counted| != 1 || TotalOf(env.lib.casefold, counted[0]).None?
              then e == Execution(Failure(BadCount), [count])
              else
                && e.sent == [count, select]
                && match env.database.rows(select)
                   case None => e.result == Failure(ClientFailed)
                   case Some(served) =>
                     if route.piiColumn.Some? && env.cache.None? then e.result == Failure(NoMapper)
                     else
                       && e.result.Success? && e.result.value.Paged?
                       && e.result.value.total == TotalOf(env.lib.casefold, counted[0]).value
                       && e.result.value.page == page && e.result.value.size == size
                       && AnswersRows(env, route, served, e.result.value.rows, e.result.value.missing)
  {
    PreparedMeans(env, route, params);
    var p := Prepare(env, route, params).value;
    var (page, size) := (p.pagination.value.page, p.pagination.value.size);
    match env.database.rows(Call(PageOf(p.sql), WithPage(p.values, size, (page - 1) * size))) {
      case None =>
      case Some(served) => MapPiiAnswers(env, route, served);
    }
  }

  // ---------- Bound parameters are exact ----------

  /** What every successful preparation went through. */
  lemma {:induction false} PreparedMeans(env: Environment, route: Store.Route, params: QueryParams)
    requires Prepare(env, route, params).Success?
    ensures var p := Prepare(env, route, params).value;
            var v := Validated(env.sql, route.canonicalSql, route.dialect);
            var rest := if route.paginated then WithoutPaging(params) else params;
            && v.Success? && p.sql == v.value.canonicalSql
            && ValidateContract(v.value.parameterNames, route.params).None?
            && AllAccepted(env.lib, route.params)
            && CastParameters(env.lib, route.params, CollectQuery(rest)) == Success(p.values)
            && (route.paginated <==> p.pagination.Some?)
            && (p.pagination.Some? ==> 1 <= p.pagination.value.page && 1 <= p.pagination.value.size <= 1000)
  {
    CheckIsFirst(env.lib, route.params, 0);
  }

  lemma {:induction false} SentMeans(env: Environment, route: Store.Route, params: QueryParams, call: Call)
    requires call in Execute(env, route, params).sent
    ensures Prepare(env, route, params).Success?
    ensures var p := Prepare(env, route, params).value;
            && call.statement.sql == p.sql
            && if call.statement.PageOf? then
                 p.pagination.Some? &&
                 var page := p.pagination.value;
                 call.values == WithPage(p.values, page.size, (page.page - 1) * page.size)
               else call.values == p.values
  {
  }

  /** Whatever row is stored and whatever the request: each statement that reaches the database wraps
      a text without a listed node, its bound keys are the placeholders of that text and the two of the
      page wrapper; and they are those of the text sent exactly when the parser reads the wrapper so,
      which for a plain statement it does. */
  lemma {:induction false} BoundKeysAreExact(env: Environment, route: Store.Route, params: QueryParams, call: Call)
    requires DistinctNames(route.params) && call in Execute(env, route, params).sent
    ensures InnerPlaceholders(env.sql, call.statement, route.dialect) == Some(call.values.Keys)
    ensures SelectOnly(env.sql.parseOne(call.statement.sql, route.dialect).value)
    ensures BindsExactly(env.sql, call, route.dialect) <==> ReadsWrapper(env.sql, call.statement, route.dialect)
    ensures call.statement.Plain? ==> BindsExactly(env.sql, call, route.dialect)
  {
    SentMeans(env, route, params, call);
    PreparedMeans(env, route, params);
    var p := Prepare(env, route, params).value;
    assert p.values.Keys == Names(route.params) by {
      CastIsExact(env.lib, route.params, CollectQuery(if route.paginated then WithoutPaging(params) else params));
    }
    var v := Validated(env.sql, route.canonicalSql, route.dialect).value;
    ContractIsExact(v.parameterNames, route.params);
    AcceptedTree(env.sql, route.canonicalSql, route.dialect);
    assert call.values.Keys == p.values.Keys + if call.statement.PageOf? then {SIZE_KEY, OFFSET_KEY} else {};
  }

  lemma {:induction false} AcceptedTree(lib: SqlLibrary, sql: string, dialect: Dialect)
    requires Validated(lib, sql, dialect).Success?
    ensures var v := Validated(lib, sql, dialect).value;
            var tree := lib.parseOne(v.canonicalSql, dialect);
            tree.Some? && SelectOnly(tree.value) && Placeholders(tree.value) == v.parameterNames
  {
  }

  lemma {:induction false} WithoutPagingGetList(params: QueryParams, name: string)
    ensures GetList(WithoutPaging(params), name) == if name in [PAGE, PAGE_SIZE] then [] else GetList(params, name)
  {
    if params == [] {
    } else {
      WithoutPagingGetList(params[1..], name);
      var rest := WithoutPaging(params[1..]);
      if params[0].0 in [PAGE, PAGE_SIZE] {
        assert WithoutPaging(params) == rest;
      } else {
        assert WithoutPaging(params) == [params[0]] + rest;
        assert ([params[0]] + rest)[1..] == rest;
      }
    }
  }

  /** Taking the pagination parameters out of a request takes out nothing else. */
  lemma {:induction false} PagingLeavesTheRest(params: QueryParams, name: string)
    requires name !in [PAGE, PAGE_SIZE]
    ensures name in CollectQuery(WithoutPaging(params)) <==> name in CollectQuery(params)
    ensures name in CollectQuery(params) ==> CollectQuery(WithoutPaging(params))[name] == CollectQuery(params)[name]
  {
    WithoutPagingGetList(params, name);
    ListedIffSupplied(params, name);
    ListedIffSupplied(WithoutPaging(params), name);
  }

  /** When the reserved names are free, every call binds each definition to what it makes of the
      request: a value of its type, or null if it was omitted. */
  lemma {:induction false} EveryDefinitionGetsItsValue(env: Environment, route: Store.Route, params: QueryParams,
                                                       call: Call, i: nat)
    requires DistinctNames(route.params) && ReservedFree(route.paginated, Names(route.params))
    requires call in Execute(env, route, params).sent && i < |route.params|
    ensures var (name, d) := route.params[i];
            && name in call.values
            && Bind(env.lib, name, d, CollectQuery(params)) == Success(call.values[name])
            && (HasKind(d.kind, call.values[name]) || (call.values[name] == Null && !d.required
                 && name !in CollectQuery(params)))
  {
    SentMeans(env, route, params, call);
    PreparedMeans(env, route, params);
    var p := Prepare(env, route, params).value;
    var (name, d) := route.params[i];
    assert name in Names(route.params);
    var rest := if route.paginated then WithoutPaging(params) else params;
    assert name in p.values && Bind(env.lib, name, d, CollectQuery(rest)) == Success(p.values[name]) by {
      CastIsExact(env.lib, route.params, CollectQuery(rest));
    }
    assert call.values[name] == p.values[name];
    if route.paginated {
      PagingLeavesTheRest(params, name);
    }
    BoundValuesHaveTheirKind(env.lib, name, d, CollectQuery(params));
  }

  /** The window of every page query is in range. */
  lemma {:induction false} WindowsAreInRange(env: Environment, route: Store.Route, params: QueryParams, call: Call)
    requires call in Execute(env, route, params).sent && call.statement.PageOf?
    ensures exists page: nat, size: nat :: 1 <= page && 1 <= size <= 1000 && IsWindow(call, page, size)
  {
    SentMeans(env, route, params, call);
    PreparedMeans(env, route, params);
    var p := Prepare(env, route, params).value.pagination.value;
    assert IsWindow(call, p.page, p.size);
  }

  predicate IsWindow(call: Call, page: nat, size: nat) {
    && SIZE_KEY in call.values && call.values[SIZE_KEY] == Int(size)
    && OFFSET_KEY in call.values && call.values[OFFSET_KEY] == Int((page - 1) * size)
  }

  /** An OverflowError leaves the execution: from loading the definitions, or from a cast. */
  predicate Escapes(e: Execution) {
    e.result.Failure?
    && (e.result.error.DefinitionOverflows?
        || (e.result.error.BadParameters? && e.result.error.parameter.Escaped?))
  }

  /** Over any stored row and request, an OverflowError escapes exactly when the SQL validates and the
      first stored definition that is not accepted is an optional float with a too large int as its
      default; the values of the request never cause it. */
  lemma {:induction false} ExecutionEscapesExactly(env: Environment, route: Store.Route, params: QueryParams)
    ensures Escapes(Execute(env, route, params)) <==>
              && Validated(env.sql, route.canonicalSql, route.dialect).Success?
              && exists i :: 0 <= i < |route.params| && FirstNotAccepted(env.lib, route.params, i)
                   && ValidateDefault(env.lib, route.params[i].1).DefaultOverflows?
  {
    CheckIsFirst(env.lib, route.params, 0);
    if AllAccepted(env.lib, route.params) {
      AcceptedNeverEscapes(env, route, params);
    } else {
      PrepareOfBadDefinitions(env, route, params);
    }
  }

  lemma {:induction false} AcceptedNeverEscapes(env: Environment, route: Store.Route, params: QueryParams)
    requires AllAccepted(env.lib, route.params)
    ensures !Escapes(Execute(env, route, params))
  {
    CheckIsFirst(env.lib, route.params, 0);
    QueryNeverEscapes(env.lib, route.params, Rest(route.paginated, params));
  }

  lemma {:induction false} PrepareOfBadDefinitions(env: Environment, route: Store.Route, params: QueryParams)
    requires !AllAccepted(env.lib, route.params)
    ensures Execute(env, route, params).result.Failure?
    ensures var error := Execute(env, route, params).result.error;
            if Validated(env.sql, route.canonicalSql, route.dialect).Failure? then error.SqlFailed?
            else if CheckDefinitions(env.lib, route.params, 0).DefaultOverflows? then error.DefinitionOverflows?
            else error.BadDefinitions?
  {
    CheckIsFirst(env.lib, route.params, 0);
  }

  // ---------- Stored routes keep running ----------

  /** The errors that blame what is stored, not the request. */
  predicate RefusesStored(error: ExecuteError) {
    error.SqlFailed? || error.BadDefinitions? || error.DefinitionOverflows? || error.BadContract?
  }

  /** Stored SQL and definitions are refused while the request is prepared, or never. */
  lemma {:induction false} RefusalIsPreparation(env: Environment, route: Store.Route, params: QueryParams)
    ensures var result := Execute(env, route, params).result;
            result.Failure? && RefusesStored(result.error) ==> Prepare(env, route, params) == Failure(result.error)
  {
  }

  lemma {:induction false} ValidatedRowPrepares(env: Environment, route: Store.Route, params: QueryParams)
    requires AllAccepted(env.lib, route.params) && (forall i :: 0 <= i < |route.params| ==> IsName(route.params[i].0))
    requires Validated(env.sql, route.canonicalSql, route.dialect)
          == Success(ValidatedSql(route.canonicalSql, Names(route.params)))
    ensures Prepare(env, route, params).Failure? ==> !RefusesStored(Prepare(env, route, params).error)
    ensures Prepare(env, route, params).Success? ==> Prepare(env, route, params).value.sql == route.canonicalSql
  {
    CheckIsFirst(env.lib, route.params, 0);
  }

  lemma {:induction false} ConsistentNames(env: Environment, route: Store.Route)
    requires Consistent(env.sql, route)
    ensures forall i :: 0 <= i < |route.params| ==> IsName(route.params[i].0)
  {
    forall i | 0 <= i < |route.params| ensures IsName(route.params[i].0) {
      assert route.params[i].0 in Names(route.params);
    }
  }

  /** A consistent row passes every check of its SQL and definitions, and what is sent is the stored
      text, exactly when the printer is stable on that text. */
  lemma {:induction false} ConsistentRowRunsIffStable(env: Environment, route: Store.Route, params: QueryParams)
    requires Consistent(env.sql, route) && AllAccepted(env.lib, route.params)
    ensures Validated(env.sql, route.canonicalSql, route.dialect)
          == Success(ValidatedSql(route.canonicalSql, Names(route.params)))
       <==> Stable(env.sql, route.canonicalSql, route.dialect)
    ensures Stable(env.sql, route.canonicalSql, route.dialect) ==>
              var e := Execute(env, route, params);
              && !(e.result.Failure? && RefusesStored(e.result.error))
              && forall call :: call in e.sent ==> call.statement.sql == route.canonicalSql
  {
    var v := ValidatedSql(route.canonicalSql, Names(route.params));
    RevalidationIffStable(env.sql, route.canonicalSql, v, route.dialect);
    ConsistentNames(env, route);
    if Stable(env.sql, route.canonicalSql, route.dialect) {
      ValidatedRowPrepares(env, route, params);
      RefusalIsPreparation(env, route, params);
      forall call | call in Execute(env, route, params).sent ensures call.statement.sql == route.canonicalSql {
        SentMeans(env, route, params, call);
      }
    }
  }

  // ---------- Authorise, then look up ----------

  ghost function Lookup(committed: map<Store.Id, Store.Route>, prefix: string, path: string): Option<Store.Route> {
    if exists id :: id in committed && Store.Key(committed[id]) == (prefix, path) then
      var id :| id in committed && Store.Key(committed[id]) == (prefix, path);
      Some(committed[id])
    else None
  }

  /** With unique keys the lookup finds exactly the row of this prefix and path. */
  lemma {:induction false} LookupIsExact(committed: map<Store.Id, Store.Route>, prefix: string, path: string,
                                         row: Store.Route)
    requires Store.UniqueKeys(committed)
    ensures Lookup(committed, prefix, path) == Some(row)
       <==> exists id :: id in committed && committed[id] == row && row.prefix == prefix && row.path == path
    ensures Lookup(committed, prefix, path) == None
       <==> forall id :: id in committed ==> committed[id].prefix != prefix || committed[id].path != path
  {
    forall id | id in committed
      ensures Store.Key(committed[id]) == (prefix, path)
         <==> committed[id].prefix == prefix && committed[id].path == path
    {
    }
  }

  datatype Served = Denied | Ran(execution: Execution)

  /** A GET of {api_prefix}/{prefix}/{path} by a user with this role and lowercased username. */
  ghost function Serve(env: Environment, committed: map<Store.Id, Store.Route>, role: Permission.Role, name: string,
                       apiPrefix: string, prefix: string, path: string, params: QueryParams): Served {
    if !Permission.Allowed(role, name, Permission.TrimSlashes(apiPrefix) + "/" + prefix + "/" + path, apiPrefix)
        then Denied
    else
      match Lookup(committed, prefix, path)
      case None => Ran(Execution(Failure(NoRoute), []))
      case Some(route) => Ran(Execute(env, route, params))
  }

  /** A regular user is turned away from every foreign prefix whatever the table holds, so the answer
      does not tell whether the route exists; under the own prefix nobody is turned away. */
  lemma {:induction false} RegularUserRunsOwnRoutes(env: Environment, committed: map<Store.Id, Store.Route>,
                                                    name: string,
                                 apiPrefix: string, prefix: string, path: string, params: QueryParams)
    requires '/' !in name && prefix != "" && '/' !in prefix
    ensures Serve(env, committed, Permission.Regular, name, apiPrefix, prefix, path, params) == Denied
          <==> prefix != name
  {
    Permission.RegularUserOwnsFirstSegment(name, apiPrefix, prefix, path);
  }

  /** Whoever is let in gets the answer of the stored row, or learns that there is none; an administrator
      is always let in. */
  lemma {:induction false} AllowedRequestsRun(env: Environment, committed: map<Store.Id, Store.Route>,
                                              role: Permission.Role, name: string, apiPrefix: string, prefix: string,
                                              path: string, params: QueryParams)
    ensures var served := Serve(env, committed, role, name, apiPrefix, prefix, path, params);
            && (role.Admin? ==> served.Ran?)
            && (served.Ran? ==>
                  match Lookup(committed, prefix, path)
                  case None => served.execution == Execution(Failure(NoRoute), [])
                  case Some(row) => served.execution == Execute(env, row, params))
  {
  }

  function Core(env: Environment): Store.Env {
    Store.Env(env.sql, env.lib)
  }

  lemma {:induction false} StoredRouteIsFound(env: Environment, events: seq<Store.Event>, id: Store.Id)
    requires Store.Run(Core(env), Store.START, events).Some?
    requires id in Store.Run(Core(env), Store.START, events).value.committed
    ensures var table := Store.Run(Core(env), Store.START, events).value.committed;
            Lookup(table, table[id].prefix, table[id].path) == Some(table[id])
  {
    Store.UniqueRoutesAndErrors(Core(env), events);
    var route := Store.Run(Core(env), Store.START, events).value.committed[id];
    assert Store.Key(route) == (route.prefix, route.path);
  }

  lemma {:induction false} StoredRouteIsConsistent(env: Environment, events: seq<Store.Event>, id: Store.Id)
    requires Store.Run(Core(env), Store.START, events).Some? && IsoReadsBack(env.lib)
    requires var s := Store.Run(Core(env), Store.START, events).value;
             EveryCommitFits(Core(env), Matching, s) && id in s.committed
    ensures var route := Store.Run(Core(env), Store.START, events).value.committed[id];
            Consistent(env.sql, route) && DistinctNames(route.params) && AllAccepted(env.lib, route.params)
  {
    StoredRowsAreWellFormed(Core(env), events);
    ReachableTableMeets(Core(env), Matching, events);
    assert Meets(Core(env), Matching, Store.Run(Core(env), Store.START, events).value.committed[id]);
  }

  lemma {:induction false} ConsistentRowBindsItsNames(env: Environment, route: Store.Route, params: QueryParams,
                                                      call: Call)
    requires Consistent(env.sql, route) && DistinctNames(route.params) && AllAccepted(env.lib, route.params)
    requires Stable(env.sql, route.canonicalSql, route.dialect) && call in Execute(env, route, params).sent
    ensures call.statement.sql == route.canonicalSql
    ensures call.values.Keys == Names(route.params) + if call.statement.PageOf? then {SIZE_KEY, OFFSET_KEY} else {}
  {
    ConsistentRowRunsIffStable(env, route, params);
    BoundKeysAreExact(env, route, params, call);
  }

  /** Over every interleaving in which each committed update fitted the SQL and definitions of its row:
      each stored route is the one its URL finds, is never refused for its SQL or its definitions, and
      sends the stored text with exactly the declared parameters, given a printer that is stable on
      that text. */
  lemma {:induction false} StoredRoutesExecute(env: Environment, events: seq<Store.Event>, id: Store.Id,
                                               params: QueryParams)
    requires Store.Run(Core(env), Store.START, events).Some? && IsoReadsBack(env.lib)
    requires var s := Store.Run(Core(env), Store.START, events).value;
             && EveryCommitFits(Core(env), Matching, s) && id in s.committed
             && Stable(env.sql, s.committed[id].canonicalSql, s.committed[id].dialect)
    ensures var s := Store.Run(Core(env), Store.START, events).value;
            var route := s.committed[id];
            var e := Execute(env, route, params);
            && Lookup(s.committed, route.prefix, route.path) == Some(route)
            && !(e.result.Failure? && RefusesStored(e.result.error))
            && forall call :: call in e.sent ==>
                 && call.statement.sql == route.canonicalSql
                 && call.values.Keys == Names(route.params) + if call.statement.PageOf?
                      then {SIZE_KEY, OFFSET_KEY} else {}
  {
    var route := Store.Run(Core(env), Store.START, events).value.committed[id];
    StoredRouteIsFound(env, events, id);
    StoredRouteIsConsistent(env, events, id);
    ConsistentRowRunsIffStable(env, route, params);
    forall call | call in Execute(env, route, params).sent
      ensures call.values.Keys == Names(route.params) + if call.statement.PageOf? then {SIZE_KEY, OFFSET_KEY} else {}
    {
      ConsistentRowBindsItsNames(env, route, params, call);
    }
  }

  /** Over every interleaving, no OverflowError escapes from the execution of any stored route. */
  lemma {:induction false} StoredRoutesNeverEscape(env: Environment, events: seq<Store.Event>, id: Store.Id,
                                                   params: QueryParams)
    requires Store.Run(Core(env), Store.START, events).Some? && IsoReadsBack(env.lib)
    requires id in Store.Run(Core(env), Store.START, events).value.committed
    ensures !Escapes(Execute(env, Store.Run(Core(env), Store.START, events).value.committed[id], params))
  {
    StoredRowsAreWellFormed(Core(env), events);
    ExecutionEscapesExactly(env, Store.Run(Core(env), Store.START, events).value.committed[id], params);
  }

  /** Over every interleaving in which each committed update kept the reserved names free: every call
      of every stored route binds each definition to its own value, of its type or null if omitted. */
  lemma {:induction false} StoredRoutesBindTheirValues(env: Environment, events: seq<Store.Event>, id: Store.Id,
                                                       params: QueryParams, call: Call, i: nat)
    requires Store.Run(Core(env), Store.START, events).Some? && IsoReadsBack(env.lib)
    requires var s := Store.Run(Core(env), Store.START, events).value;
             && EveryCommitFits(Core(env), Unreserved, s) && id in s.committed
             && call in Execute(env, s.committed[id], params).sent && i < |s.committed[id].params|
    ensures var (name, d) := Store.Run(Core(env), Store.START, events).value.committed[id].params[i];
            && name in call.values
            && Bind(env.lib, name, d, CollectQuery(params)) == Success(call.values[name])
            && (HasKind(d.kind, call.values[name]) || (call.values[name] == Null && !d.required
                 && name !in CollectQuery(params)))
            && (call.statement.PageOf? ==> name !in [PAGE, PAGE_SIZE, SIZE_KEY, OFFSET_KEY])
  {
    var route := Store.Run(Core(env), Store.START, events).value.committed[id];
    StoredRowsAreWellFormed(Core(env), events);
    ReachableTableMeets(Core(env), Unreserved, events);
    assert Meets(Core(env), Unreserved, route);
    EveryDefinitionGetsItsValue(env, route, params, call, i);
    SentMeans(env, route, params, call);
    PreparedMeans(env, route, params);
    assert route.params[i].0 in Names(route.params);
  }

  // ---------- Pages ----------

  function PageOfRows<T>(rows: seq<T>, page: nat, size: nat): seq<T>
    requires page > 0
  {
    Table.Slice(rows, size, (page - 1) * size)
  }

  function FirstPages<T>(rows: seq<T>, size: nat, n: nat): seq<T> {
    if n == 0 then [] else FirstPages(rows, size, n - 1) + PageOfRows(rows, n, size)
  }

  lemma {:induction false} PageExtendsPrefix<T>(rows: seq<T>, size: nat, offset: nat)
    ensures rows[..Table.Min(offset, |rows|)] + Table.Slice(rows, size, offset)
         == rows[..Table.Min(offset + size, |rows|)]
  {
  }

  lemma {:induction false} FirstPagesArePrefix<T>(rows: seq<T>, size: nat, n: nat)
    ensures FirstPages(rows, size, n) == rows[..Table.Min(n * size, |rows|)]
  {
    if n == 0 {
    } else {
      FirstPagesArePrefix(rows, size, n - 1);
      PageExtendsPrefix(rows, size, (n - 1) * size);
      assert n * size == (n - 1) * size + size;
    }
  }

  /** The number of pages is the least one whose pages have room for all rows. */
  lemma {:induction false} TotalPagesIsCeiling(total: nat, size: nat)
    requires size > 0
    ensures var n := TotalPages(total, size); n >= 0 && (n - 1) * size < total <= n * size
  {
  }

  lemma {:induction false} TimesIsMonotone(a: nat, b: nat, size: nat)
    requires a <= b
    ensures a * size <= b * size
  {
  }

  /** Pages 1 to the last one put together are all rows; all but the last are full, the last is not
      empty, and later ones are. */
  lemma {:induction false} PagesPartition<T>(rows: seq<T>, size: nat, page: nat)
    requires size > 0 && page > 0
    ensures TotalPages(|rows|, size) >= 0
    ensures FirstPages(rows, size, TotalPages(|rows|, size)) == rows
    ensures page < TotalPages(|rows|, size) ==> |PageOfRows(rows, page, size)| == size
    ensures page == TotalPages(|rows|, size) ==> 0 < |PageOfRows(rows, page, size)| <= size
    ensures page > TotalPages(|rows|, size) ==> PageOfRows(rows, page, size) == []
  {
    var last := TotalPages(|rows|, size);
    TotalPagesIsCeiling(|rows|, size);
    FirstPagesArePrefix(rows, size, last);
    assert page * size == (page - 1) * size + size;
    if page < last {
      TimesIsMonotone(page, last - 1, size);
    } else if page > last {
      TimesIsMonotone(last, page - 1, size);
    }
  }

  /** The database serves these rows for the count and for every page. */
  ghost predicate Serves(database: Database, sql: string, values: map<string, Value>, rows: seq<Pii.Cells>) {
    && database.count(Call(CountOf(sql), values)) == Some([[("total", Some(|rows|))]])
    && forall size: nat, offset: nat ::
         database.rows(Call(PageOf(sql), WithPage(values, size, offset))) == Some(Table.Slice(rows, size, offset))
  }

  /** A paginated route whose first request gets to a database that serves these rows; if the route has
      a PII column, the mapping is configured. */
  ghost predicate ServesRoute(env: Environment, route: Store.Route, first: QueryParams, rows: seq<Pii.Cells>) {
    && route.paginated && (route.piiColumn.Some? ==> env.cache.Some?)
    && env.lib.casefold("total") == "total"
    && Prepare(env, route, first).Success?
    && var p := Prepare(env, route, first).value; Serves(env.database, p.sql, p.values, rows)
  }

  /** Requests for pages 1, 2, … that differ in nothing else. */
  ghost predicate AsksForPages(env: Environment, requests: nat -> QueryParams, size: nat) {
    forall n: nat :: n > 0 ==>
      && WithoutPaging(requests(n)) == WithoutPaging(requests(1))
      && AsksFor(env.number, GetList(requests(n), "page"), 1, None, n)
      && AsksFor(env.number, GetList(requests(n), "page_size"), 100, Some(1000), size)
  }

  function Append(answers: (seq<Pii.Cells>, seq<Pii.Missing>),
                  result: Result<Response, ExecuteError>): (seq<Pii.Cells>, seq<Pii.Missing>) {
    match result
    case Success(Paged(rows, missing, _, _, _, _)) => (answers.0 + rows, answers.1 + missing)
    case _ => answers
  }

  /** The rows and the misses of the first n answers, one after the other. */
  function Collected(answers: nat -> Result<Response, ExecuteError>, n: nat): (seq<Pii.Cells>, seq<Pii.Missing>) {
    if n == 0 then ([], []) else Append(Collected(answers, n - 1), answers(n))
  }

  function Answered(env: Environment, route: Store.Route, requests: nat -> QueryParams,
                    n: nat): (seq<Pii.Cells>, seq<Pii.Missing>) {
    Collected(AnswersTo(env, route, requests), n)
  }

  function AnswersTo(env: Environment, route: Store.Route,
                     requests: nat -> QueryParams): nat -> Result<Response, ExecuteError> {
    (k: nat) => Execute(env, route, requests(k)).result
  }

  /** Requests that differ in nothing but the page are prepared alike. */
  lemma {:induction false} PreparedAlike(env: Environment, route: Store.Route, a: QueryParams, b: QueryParams)
    requires route.paginated && Prepare(env, route, a).Success? && WithoutPaging(a) == WithoutPaging(b)
    requires ExtractPagination(env.number, b, true).Success?
    ensures var pagination := ExtractPagination(env.number, b, true).value.1;
            Prepare(env, route, b) == Success(Prepare(env, route, a).value.(pagination := pagination))
  {
  }

  lemma {:induction false} PageOfServed(env: Environment, route: Store.Route, p: Prepared, n: nat, size: nat,
                                        rows: seq<Pii.Cells>)
    requires n > 0 && size > 0 && Serves(env.database, p.sql, p.values, rows) && env.lib.casefold("total") == "total"
    requires route.piiColumn.Some? ==> env.cache.Some?
    ensures var mapped := MapPii(env, route, PageOfRows(rows, n, size)).value;
            ExecutePage(env, route, p, n, size).result
            == Success(Paged(mapped.0, mapped.1, |rows|, n, size, TotalPages(|rows|, size)))
  {
  }

  /** The answer to the request for page n. */
  lemma {:induction false} PageAnswer(env: Environment, route: Store.Route, requests: nat -> QueryParams, size: nat,
                                      rows: seq<Pii.Cells>, n: nat)
    requires AsksForPages(env, requests, size) && n > 0 && ServesRoute(env, route, requests(1), rows)
    ensures size > 0
    ensures var answer := Execute(env, route, requests(n)).result;
            && answer.Success? && answer.value.Paged?
            && AnswersRows(env, route, PageOfRows(rows, n, size), answer.value.rows, answer.value.missing)
            && answer.value.total == |rows| && answer.value.page == n && answer.value.size == size
            && answer.value.totalPages == TotalPages(|rows|, size)
  {
    PageIsMapped(env, route, requests, size, rows, n);
    MapPiiAnswers(env, route, PageOfRows(rows, n, size));
  }

  lemma {:induction false} PageIsMapped(env: Environment, route: Store.Route, requests: nat -> QueryParams, size: nat,
                                        rows: seq<Pii.Cells>, n: nat)
    requires AsksForPages(env, requests, size) && n > 0 && ServesRoute(env, route, requests(1), rows)
    ensures size > 0 && MapPii(env, route, PageOfRows(rows, n, size)).Some?
    ensures var mapped := MapPii(env, route, PageOfRows(rows, n, size)).value;
            Execute(env, route, requests(n)).result
            == Success(Paged(mapped.0, mapped.1, |rows|, n, size, TotalPages(|rows|, size)))
  {
    assert WithoutPaging(requests(n)) == WithoutPaging(requests(1));
    PaginationIsExact(env.number, requests(n), n, size);
    PreparedAlike(env, route, requests(1), requests(n));
    PreparedMeans(env, route, requests(n));
    PageOfServed(env, route, Prepare(env, route, requests(n)).value, n, size, rows);
  }

  lemma {:induction false} MapPiiConcat(env: Environment, route: Store.Route, a: seq<Pii.Cells>, b: seq<Pii.Cells>)
    requires route.piiColumn.Some? ==> env.cache.Some?
    ensures MapPii(env, route, a).Some? && MapPii(env, route, b).Some? && MapPii(env, route, a + b).Some?
    ensures var (x, y) := (MapPii(env, route, a).value, MapPii(env, route, b).value);
            MapPii(env, route, a + b).value == (x.0 + y.0, x.1 + y.1)
  {
    if route.piiColumn.Some? {
      Pii.MappingConcat(a, b, Rules(route.piiColumn.value), env.cache.value);
    } else {
      var none: seq<Pii.Missing> := [];
      assert none + none == none;
    }
  }

  lemma {:induction false} AnsweredIsMappedPrefix(env: Environment, route: Store.Route, requests: nat -> QueryParams,
                                                  size: nat, rows: seq<Pii.Cells>, n: nat)
    requires AsksForPages(env, requests, size) && ServesRoute(env, route, requests(1), rows)
    ensures Answered(env, route, requests, n) == MapPii(env, route, FirstPages(rows, size, n)).value
  {
    PageIsMapped(env, route, requests, size, rows, 1);
    var answers := AnswersTo(env, route, requests);
    forall k: nat | k > 0 ensures IsMappedPage(env, route, answers(k), rows, k, size) {
      AnswerIsMappedPage(env, route, requests, size, rows, k);
    }
    CollectedIsMapped(env, route, answers, size, rows, n);
  }

  lemma {:induction false} AnswerIsMappedPage(env: Environment, route: Store.Route, requests: nat -> QueryParams,
                                              size: nat, rows: seq<Pii.Cells>, k: nat)
    requires AsksForPages(env, requests, size) && k > 0 && ServesRoute(env, route, requests(1), rows)
    ensures IsMappedPage(env, route, AnswersTo(env, route, requests)(k), rows, k, size)
  {
    PageIsMapped(env, route, requests, size, rows, k);
  }

  predicate IsMappedPage(env: Environment, route: Store.Route, answer: Result<Response, ExecuteError>,
                         rows: seq<Pii.Cells>, k: nat, size: nat)
  {
    && size > 0 && k > 0
    && match MapPii(env, route, PageOfRows(rows, k, size))
       case None => false
       case Some(m) => answer == Success(Paged(m.0, m.1, |rows|, k, size, TotalPages(|rows|, size)))
  }

  lemma {:induction false} CollectedIsMapped(env: Environment, route: Store.Route,
                                             answers: nat -> Result<Response, ExecuteError>, size: nat,
                                             rows: seq<Pii.Cells>, n: nat)
    requires size > 0 && (route.piiColumn.Some? ==> env.cache.Some?)
    requires forall k: nat :: k > 0 ==> IsMappedPage(env, route, answers(k), rows, k, size)
    ensures MapPii(env, route, FirstPages(rows, size, n)).Some?
    ensures Collected(answers, n) == MapPii(env, route, FirstPages(rows, size, n)).value
  {
    if n == 0 {
      var none: seq<Pii.Cells> := FirstPages(rows, size, 0);
      assert MapPii(env, route, none).value == (none, []);
    } else {
      CollectedIsMapped(env, route, answers, size, rows, n - 1);
      assert IsMappedPage(env, route, answers(n), rows, n, size);
      AppendIsMapped(env, route, FirstPages(rows, size, n - 1), PageOfRows(rows, n, size), |rows|, n, size,
                     TotalPages(|rows|, size));
    }
  }

  lemma {:induction false} AppendIsMapped(env: Environment, route: Store.Route, a: seq<Pii.Cells>, b: seq<Pii.Cells>,
                                          total: int, page: int, size: int, pages: int)
    requires route.piiColumn.Some? ==> env.cache.Some?
    ensures MapPii(env, route, a).Some? && MapPii(env, route, b).Some? && MapPii(env, route, a + b).Some?
    ensures var mapped := MapPii(env, route, b).value;
            Append(MapPii(env, route, a).value, Success(Paged(mapped.0, mapped.1, total, page, size, pages)))
            == MapPii(env, route, a + b).value
  {
    MapPiiConcat(env, route, a, b);
  }

  /** Page n of a result of `total` rows: all but the last are full, and those beyond are empty. */
  predicate IsPageOf(answer: Result<Response, ExecuteError>, total: nat, n: nat, size: nat) {
    && size > 0 && answer.Success? && answer.value.Paged?
    && var p := answer.value;
       var last := TotalPages(total, size);
       && p.total == total && p.page == n && p.size == size && p.totalPages == last
       && (n < last ==> |p.rows| == size)
       && (n == last ==> 0 < |p.rows| <= size)
       && (n > last ==> p.rows == [] && p.missing == [])
  }

  lemma {:induction false} PageHasItsLength(env: Environment, route: Store.Route, requests: nat -> QueryParams,
                                            size: nat, rows: seq<Pii.Cells>, n: nat)
    requires AsksForPages(env, requests, size) && n > 0 && ServesRoute(env, route, requests(1), rows)
    ensures IsPageOf(Execute(env, route, requests(n)).result, |rows|, n, size)
  {
    PageIsMapped(env, route, requests, size, rows, n);
    PagesPartition(rows, size, n);
  }

  /** Over any result and page size: the answers to the requests for pages 1 to total_pages, put
      together, are the whole result mapped at once, with the same list of misses; the total is the
      number of rows, and a page beyond the last is empty. */
  lemma {:induction false} AllPagesAreTheWholeResult(env: Environment, route: Store.Route,
                                                     requests: nat -> QueryParams, size: nat, rows: seq<Pii.Cells>,
                                                     n: nat)
    requires AsksForPages(env, requests, size) && n > 0 && ServesRoute(env, route, requests(1), rows)
    ensures IsPageOf(Execute(env, route, requests(n)).result, |rows|, n, size)
    ensures TotalPages(|rows|, size) >= 0
    ensures var (mapped, missing) := Answered(env, route, requests, TotalPages(|rows|, size));
            AnswersRows(env, route, rows, mapped, missing)
  {
    PageHasItsLength(env, route, requests, size, rows, n);
    PagesPartition(rows, size, n);
    AnsweredIsMappedPrefix(env, route, requests, size, rows, TotalPages(|rows|, size));
    MapPiiAnswers(env, route, rows);
  }
}
