/** The HTTP exchange as the client sees it, with the transport abstracted away:
    the requests it builds (method, path, query, body) and the responses it
    inspects (error flag, raw body, library error, decoded value).
 */
module Http {
  import opened GoTypes
  import opened Decimal
  import opened Products
  import opened Errors

  datatype Verb = Get | Post | Patch | Delete

  /** The query parameters the listing endpoint understands. */
  datatype Param = Limit | Skip

  function ParamName(p: Param): string
  {
    match p
    case Limit => "limit"
    case Skip => "skip"
  }

  /** A request; `params` holds the query parameters as the integers the
      client formats, `Query` gives their spelling on the wire. */
  datatype Request = Request(
    verb: Verb,
    path: string,
    params: map<Param, Int64>,
    body: Option<Product>)

  /** The query string: each parameter's name with its value spelled by strconv.Itoa. */
  function Query(req: Request): map<string, string>
  {
    map p | p in req.params :: ParamName(p) := FormatInt(req.params[p])
  }

  /** One response. `isError` is the HTTP library's verdict that the status
      signals an error; `err` is the error the library returned alongside it;
      `decoded` is the result value the JSON body was decoded into. */
  datatype Response<T> = Response(
    isError: bool,
    body: string,
    err: Option<TransportError>,
    decoded: T)

  /** Go's `(value, error)` pair; a nil slice is the empty sequence. */
  datatype Ret<T> = Ret(value: T, err: Option<ClientError>)

  const ProductsPath: string := "/products"
  const ItemPathPrefix: string := "/products/"
  const AddPath: string := "/products/add"
  /** The nominal page size the listing starts with and keeps asking for. */
  const PageSize: Int64 := 30

  /** The check every operation applies to a response: an error status wins
      over a library error, and only a response with neither is a success. */
  function ErrorOf<T>(res: Response<T>): (e: Option<ClientError>)
    ensures e.None? <==> !res.isError && res.err.None?
    ensures e.Some? && e.value.Remote? <==> res.isError
    ensures res.isError ==> e.value.dummy.message == res.body
    ensures e.Some? && e.value.Transport? <==> !res.isError && res.err.Some?
    ensures e.Some? && e.value.Transport? ==> e.value.cause == res.err.value
  {
    if res.isError then Some(Remote(DummyError(res.body)))
    else if res.err.Some? then Some(Transport(res.err.value))
    else None
  }

  /** Turns a response into the operation's result: the decoded value on
      success, otherwise the zero value together with the error. */
  function Settle<T>(res: Response<T>, zero: T): (r: Ret<T>)
    ensures r.err == ErrorOf(res)
    ensures r.err.None? ==> r.value == res.decoded
    ensures r.err.Some? ==> r.value == zero
  {
    match ErrorOf(res)
    case None => Ret(res.decoded, None)
    case Some(e) => Ret(zero, Some(e))
  }

  /** `fmt.Sprintf("/products/%d", id)` */
  function ItemPath(id: Int64): (p: string)
    ensures |p| > |ItemPathPrefix| && p[..|ItemPathPrefix|] == ItemPathPrefix
    ensures Canonical(p[|ItemPathPrefix|..])
  {
    var p := ItemPathPrefix + FormatInt(id);
    assert p[|ItemPathPrefix|..] == FormatInt(id);
    p
  }

  /** Reads the id back out of an item path; None for any other path. */
  function ItemIdOf(path: string): Option<int>
  {
    if |path| > |ItemPathPrefix| && path[..|ItemPathPrefix|] == ItemPathPrefix
    then ParseInt(path[|ItemPathPrefix|..])
    else None
  }

  /** The unparameterised `GET /products` the listing opens with. */
  function ListRequest(): Request
  {
    Request(Get, ProductsPath, map[], None)
  }

  /** `GET /products?limit=..&skip=..` */
  function PageRequest(limit: Int64, skip: Int64): Request
  {
    Request(Get, ProductsPath, map[Limit := limit, Skip := skip], None)
  }

  function GetRequest(id: Int64): Request
  {
    Request(Get, ItemPath(id), map[], None)
  }

  function UploadRequest(prod: Product): Request
  {
    Request(Post, AddPath, map[], Some(prod))
  }

  function UpdateRequest(id: Int64, prod: Product): Request
  {
    Request(Patch, ItemPath(id), map[], Some(prod))
  }

  function DeleteRequest(id: Int64): Request
  {
    Request(Delete, ItemPath(id), map[], None)
  }

  /** An item path names exactly one id, and no id addresses the upload path. */
  lemma ItemPathRoundTrip(id: Int64, other: Int64)
    ensures ItemIdOf(ItemPath(id)) == Some(id as int)
    ensures ItemPath(id) == ItemPath(other) <==> id == other
    ensures ItemPath(id) != AddPath
  {
    assert ItemPath(id)[|ItemPathPrefix|..] == FormatInt(id);
    assert ItemPath(other)[|ItemPathPrefix|..] == FormatInt(other);
    FormatIntRoundTrip(id);
    FormatIntRoundTrip(other);
    assert AddPath[|ItemPathPrefix|..] == "add";
    assert !IsDigit('a');
  }

  /** The listing request carries the page size and offset the client holds,
      and the server can read both back. */
  lemma PageRequestRoundTrip(limit: Int64, skip: Int64)
    ensures var q := Query(PageRequest(limit, skip));
      && q.Keys == {"limit", "skip"}
      && ParseInt(q["limit"]) == Some(limit as int)
      && ParseInt(q["skip"]) == Some(skip as int)
      && Canonical(q["limit"]) && Canonical(q["skip"])
  {
    var req := PageRequest(limit, skip);
    var q := Query(req);
    assert req.params.Keys == {Limit, Skip};
    assert q["limit"] == FormatInt(limit) by {
      assert ParamName(Limit) == "limit";
    }
    assert q["skip"] == FormatInt(skip) by {
      assert ParamName(Skip) == "skip";
    }
    FormatIntRoundTrip(limit);
    FormatIntRoundTrip(skip);
  }

  /** The exact text on the wire for the provider's sample product and for a
      page request: `/products/123` and `limit=30&skip=60`. */
  lemma WireSpellings()
    ensures ItemPath(123) == "/products/123"
    ensures var q := Query(PageRequest(30, 60));
      q.Keys == {"limit", "skip"} && q["limit"] == "30" && q["skip"] == "60"
  {
    assert NatDigits(12) == "12";
    var req := PageRequest(30, 60);
    assert req.params.Keys == {Limit, Skip};
    assert ParamName(Limit) == "limit" && ParamName(Skip) == "skip";
    assert FormatInt(30) == "30";
    assert FormatInt(60) == "60";
  }
}
