/** The generic paginated GraphQL table (`Table.tsx`): reading one page of a
    connection out of the query data, the page offset, the page count and the body. */
module GraphQLTable {
  import opened Wrappers
  import opened JsValue

  /** The default page size. */
  const DEFAULT_PAGE_SIZE := 20

  /** One page of a connection; the three numbers are copied as they came. */
  datatype PageResult = PageResult(count: Value, offset: Value, pageSize: Value, edges: seq<Value>)

  /** `edges.map(edge => edge.resource)`: reading `resource` of `null` or `undefined`
      throws. */
  function Resources(edges: seq<Value>): (r: Result<seq<Value>>)
    ensures r.TypeError? <==> exists i :: 0 <= i < |edges| && IsNullish(edges[i])
    ensures r.Ok? ==> |r.value| == |edges|
                      && forall i :: 0 <= i < |edges| ==> r.value[i] == Prop(edges[i], "resource")
  {
    if |edges| == 0 then Ok([])
    else if IsNullish(edges[0]) then TypeError
    else
      match Resources(edges[1..])
      case TypeError => TypeError
      case Ok(rest) => Ok([Prop(edges[0], "resource")] + rest)
  }

  /** `parseQueryResult(data)`: the connection under `queryResultType`; a missing
      connection, or `edges` that is not an array, throws. */
  function ParseQueryResult(data: Value, queryResultType: string): (r: Result<PageResult>)
    ensures r.Ok? ==> var conn := Prop(data, queryResultType);
                      r.value.count == Prop(conn, "count") && r.value.offset == Prop(conn, "offset")
                      && r.value.pageSize == Prop(conn, "pageSize")
                      && Prop(conn, "edges").Arr?
                      && Resources(Prop(conn, "edges").items) == Ok(r.value.edges)
    ensures IsNullish(Prop(data, queryResultType)) ==> r.TypeError?
    ensures !Prop(Prop(data, queryResultType), "edges").Arr? ==> r.TypeError?
  {
    var conn := Prop(data, queryResultType);
    if IsNullish(conn) then TypeError
    else
      var edges := Prop(conn, "edges");
      if !edges.Arr? then TypeError
      else
        match Resources(edges.items)
        case TypeError => TypeError
        case Ok(resources) => Ok(PageResult(Prop(conn, "count"), Prop(conn, "offset"), Prop(conn, "pageSize"), resources))
  }

  /** The connection object a query returns: `{count, offset, pageSize, edges}`. */
  function Connection(count: Value, offset: Value, pageSize: Value, edges: Value): Value {
    Obj([Field("count", count), Field("offset", offset), Field("pageSize", pageSize), Field("edges", edges)])
  }

  /** A connection whose edges all carry a resource is read back in order. */
  lemma {:induction false} ParseConnection(queryResultType: string, count: Value, offset: Value, pageSize: Value, resources: seq<Value>)
    ensures ParseQueryResult(Obj([Field(queryResultType, Connection(count, offset, pageSize, Arr(Wrap(resources))))]),
                             queryResultType)
            == Ok(PageResult(count, offset, pageSize, resources))
  {
    var edges := Arr(Wrap(resources));
    var data := Obj([Field(queryResultType, Connection(count, offset, pageSize, edges))]);
    ConnectionProps(queryResultType, count, offset, pageSize, edges);
    WrapResources(resources);
    ParseQueryResultOk(data, queryResultType);
  }

  /** A present connection whose edges are an array of non-null edges parses. */
  lemma {:induction false} ParseQueryResultOk(data: Value, queryResultType: string)
    requires var conn := Prop(data, queryResultType);
             !IsNullish(conn) && Prop(conn, "edges").Arr? && Resources(Prop(conn, "edges").items).Ok?
    ensures var conn := Prop(data, queryResultType);
            ParseQueryResult(data, queryResultType)
              == Ok(PageResult(Prop(conn, "count"), Prop(conn, "offset"), Prop(conn, "pageSize"),
                               Resources(Prop(conn, "edges").items).value))
  {
  }

  /** The properties of a connection under its query name. */
  lemma {:induction false} ConnectionProps(queryResultType: string, count: Value, offset: Value, pageSize: Value, edges: Value)
    ensures var conn := Connection(count, offset, pageSize, edges);
            Prop(Obj([Field(queryResultType, conn)]), queryResultType) == conn
            && Prop(conn, "count") == count && Prop(conn, "offset") == offset
            && Prop(conn, "pageSize") == pageSize && Prop(conn, "edges") == edges
  {
    var conn := Connection(count, offset, pageSize, edges);
    ConnectionFields(count, offset, pageSize, edges);
    assert Prop(conn, "count") == Get(conn.fields, "count");
    assert Prop(conn, "offset") == Get(conn.fields, "offset");
    assert Prop(conn, "pageSize") == Get(conn.fields, "pageSize");
    assert Prop(conn, "edges") == Get(conn.fields, "edges");
    assert Get([Field(queryResultType, conn)], queryResultType) == conn;
  }

  lemma {:induction false} ConnectionFields(count: Value, offset: Value, pageSize: Value, edges: Value)
    ensures var fields := [Field("count", count), Field("offset", offset), Field("pageSize", pageSize), Field("edges", edges)];
            Get(fields, "count") == count && Get(fields, "offset") == offset
            && Get(fields, "pageSize") == pageSize && Get(fields, "edges") == edges
  {
    var fields := [Field("count", count), Field("offset", offset), Field("pageSize", pageSize), Field("edges", edges)];
    assert Get(fields, "pageSize") == Get(fields[2..], "pageSize");
    assert Get(fields, "edges") == Get(fields[2..], "edges") == Get(fields[3..], "edges");
  }

  /** Each resource as an edge `{resource}`. */
  function Wrap(resources: seq<Value>): (r: seq<Value>)
    ensures |r| == |resources|
    ensures forall i :: 0 <= i < |r| ==> r[i] == Obj([Field("resource", resources[i])])
  {
    if |resources| == 0 then [] else [Obj([Field("resource", resources[0])])] + Wrap(resources[1..])
  }

  lemma {:induction false} WrapResources(resources: seq<Value>)
    ensures Resources(Wrap(resources)) == Ok(resources)
  {
    var r := Resources(Wrap(resources));
    assert r.Ok?;
    assert r.value == resources;
  }

  /** `(currentPage - 1) * pageSize`. */
  function Offset(currentPage: int, pageSize: int): (r: int)
    ensures currentPage == 1 ==> r == 0
    ensures r + pageSize == (currentPage * pageSize)
  {
    (currentPage - 1) * pageSize
  }

  /** The `pageSize` prop, 20 when it is not given. */
  function PageSizeOf(prop: Option<int>): (r: int)
    ensures prop.None? ==> r == DEFAULT_PAGE_SIZE
    ensures prop.Some? ==> r == prop.value
  {
    prop.GetOr(DEFAULT_PAGE_SIZE)
  }

  /** The paging variables of one fetch: `offset` and `count`. */
  datatype PageRequest = PageRequest(offset: int, count: int)

  /** The paging variables the fetch sends for the current page and the `pageSize` prop. */
  function RequestOf(currentPage: int, prop: Option<int>): (r: PageRequest)
    ensures r.count == PageSizeOf(prop)
    ensures r.offset == Offset(currentPage, PageSizeOf(prop))
  {
    var pageSize := PageSizeOf(prop);
    PageRequest(Offset(currentPage, pageSize), pageSize)
  }

  /** Without a `pageSize` prop, page `n` asks for the 20 rows from `20 * (n - 1)`. */
  lemma {:induction false} DefaultRequest(currentPage: int)
    ensures RequestOf(currentPage, None) == PageRequest(20 * (currentPage - 1), 20)
  {
  }

  /** Consecutive pages abut: the next page starts one page size later. */
  lemma {:induction false} NextPageOffset(currentPage: int, pageSize: int)
    ensures Offset(currentPage + 1, pageSize) == Offset(currentPage, pageSize) + pageSize
  {
  }

  /** `Math.ceil((count ?? 1) / (pageSize ?? 1))` for whole numbers; `None` when the page
      size is zero, where the division gives `Infinity` or `NaN`. */
  function PageCount(count: Option<nat>, pageSize: Option<nat>): (r: Option<nat>)
    ensures r.None? <==> pageSize == Some(0)
    ensures r.Some? ==> var c := count.GetOr(1); var p := pageSize.GetOr(1);
                        r.value * p >= c && (r.value - 1) * p < c
  {
    var c := count.GetOr(1);
    var p := pageSize.GetOr(1);
    if p == 0 then None else Some((c + p - 1) / p)
  }

  lemma {:induction false} CeilBounds(c: nat, p: nat)
    requires p > 0
    ensures ((c + p - 1) / p) * p >= c && ((c + p - 1) / p - 1) * p < c
  {
    var q := (c + p - 1) / p;
    var m := (c + p - 1) % p;
    assert q * p + m == c + p - 1;
  }

  /** Every row of the count falls on exactly one page in `1..PageCount`: row `k` is on
      page `k / pageSize + 1`, whose offset is at most `k` and whose end is beyond it. */
  lemma {:induction false} RowOnItsPage(count: nat, pageSize: nat, k: nat)
    requires pageSize > 0 && k < count
    ensures var page := k / pageSize + 1;
            1 <= page <= PageCount(Some(count), Some(pageSize)).value
            && Offset(page, pageSize) <= k < Offset(page + 1, pageSize)
  {
    var page := k / pageSize + 1;
    var n := PageCount(Some(count), Some(pageSize)).value;
    CeilBounds(count, pageSize);
    assert (page - 1) * pageSize + k % pageSize == k;
    MulBelow(page - 1, n, pageSize);
  }

  lemma {:induction false} MulBelow(a: int, b: int, p: int)
    requires p > 0 && a * p < b * p
    ensures a < b
  {
  }

  /** A table cell: the loader spanning every column, or one column's rendering of a row. */
  datatype Cell = Loader(colSpan: nat) | Content(column: nat, row: Value)

  /** The cells of one row: each column renders the row. */
  function RowCells(row: Value, columns: nat): (r: seq<Cell>)
    ensures |r| == columns
    ensures forall j :: 0 <= j < columns ==> r[j] == Content(j, row)
  {
    if columns == 0 then [] else RowCells(row, columns - 1) + [Content(columns - 1, row)]
  }

  function Rows(edges: seq<Value>, columns: nat): (r: seq<seq<Cell>>)
    ensures |r| == |edges|
    ensures forall i :: 0 <= i < |edges| ==> r[i] == RowCells(edges[i], columns)
  {
    if |edges| == 0 then [] else [RowCells(edges[0], columns)] + Rows(edges[1..], columns)
  }

  /** The table body: while loading, one row with one loader cell across the columns;
      otherwise one row per edge with one cell per column, and nothing before the first
      result. */
  function Body(isLoading: bool, result: Option<PageResult>, columns: nat): (r: seq<seq<Cell>>)
    ensures isLoading ==> r == [[Loader(columns)]]
    ensures !isLoading && result.None? ==> r == []
    ensures !isLoading && result.Some? ==>
              |r| == |result.value.edges|
              && forall i, j :: 0 <= i < |r| && 0 <= j < columns ==> |r[i]| == columns && r[i][j] == Content(j, result.value.edges[i])
  {
    if isLoading then [[Loader(columns)]]
    else match result
      case None => []
      case Some(page) => Rows(page.edges, columns)
  }
}
