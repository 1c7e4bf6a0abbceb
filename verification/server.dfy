/** The abstract server that stands in for the HTTP library and the remote API
    when the listing is run. Two kinds are modelled:
    - Scripted: a finite list of responses handed out in request order, whatever
      was asked; once the list is used up the server is unreachable;
    - Catalog: a well-behaved server holding `items` that answers
      `GET /products?limit=L&skip=S` with the items from S on, at most L of them
      (30 when no positive limit is given), and reports how many it returned.
 */
module Server {
  import opened GoTypes
  import opened Decimal
  import opened Products
  import opened Errors
  import opened Http

  datatype Server =
    | Scripted(script: seq<Response<ProductResponse>>)
    | Catalog(items: seq<Product>)
  {
    /** A catalog larger than a Go int can address is not a server the client can page through. */
    predicate WellFormed()
    {
      Catalog? ==> |items| < TwoTo63
    }
  }

  /** What a scripted server answers once its script is used up. */
  const Unreachable: Response<ProductResponse> :=
    Response(false, "", Some(TransportError("connection refused")), EmptyPage)

  /** What the catalog answers for anything but `GET /products`. */
  const NotFound: Response<ProductResponse> :=
    Response(true, "not found", None, EmptyPage)

  function CatalogPage(items: seq<Product>, req: Request): Response<ProductResponse>
    requires |items| < TwoTo63
  {
    if req.verb != Get || req.path != ProductsPath then NotFound
    else
      var skip := if Skip in req.params && req.params[Skip] >= 0 then Min(req.params[Skip], |items|) else 0;
      var size := if Limit in req.params && req.params[Limit] > 0 then req.params[Limit] as int else PageSize as int;
      var count := Min(size, |items| - skip);
      Response(false, "", None, ProductResponse(items[skip..skip + count], |items|, skip, count))
  }

  /** The answer to the request with index n (0 for the first one sent). */
  function Serve(server: Server, n: nat, req: Request): Response<ProductResponse>
    requires server.WellFormed()
  {
    match server
    case Scripted(script) => if n < |script| then script[n] else Unreachable
    case Catalog(items) => CatalogPage(items, req)
  }

  /** The answers to a sequence of requests, sent in order. */
  function Replies(server: Server, requests: seq<Request>): (rs: seq<Response<ProductResponse>>)
    requires server.WellFormed()
    ensures |rs| == |requests|
  {
    seq(|requests|, k requires 0 <= k < |requests| => Serve(server, k, requests[k]))
  }

  /** rs are the replies to requests, sent in order; stated one request at a
      time, so that a proof looks only at the newest exchange. */
  ghost predicate Answered(server: Server, requests: seq<Request>, rs: seq<Response<ProductResponse>>)
    requires server.WellFormed()
    decreases |rs|
  {
    && |rs| == |requests|
    && (|rs| > 0 ==>
          Answered(server, requests[..|rs| - 1], rs[..|rs| - 1])
          && rs[|rs| - 1] == Serve(server, |rs| - 1, requests[|rs| - 1]))
  }

  lemma AnsweredAppend(server: Server, requests: seq<Request>, rs: seq<Response<ProductResponse>>, req: Request)
    requires server.WellFormed() && Answered(server, requests, rs)
    ensures Answered(server, requests + [req], rs + [Serve(server, |requests|, req)])
  {
    assert (requests + [req])[..|requests|] == requests;
    assert (rs + [Serve(server, |requests|, req)])[..|rs|] == rs;
  }

  lemma {:induction false} AnsweredReplies(server: Server, requests: seq<Request>, rs: seq<Response<ProductResponse>>)
    requires server.WellFormed() && Answered(server, requests, rs)
    ensures rs == Replies(server, requests)
    decreases |rs|
  {
    if |rs| > 0 {
      var n := |rs| - 1;
      AnsweredReplies(server, requests[..n], rs[..n]);
      forall k | 0 <= k < |rs|
        ensures rs[k] == Serve(server, k, requests[k])
      {
        if k < n {
          assert rs[k] == rs[..n][k] && requests[k] == requests[..n][k];
        }
      }
    }
  }

  /** A catalog answers a listing request at offset skip (within the catalog)
      with the next min(30, remaining) items and reports that count as its limit. */
  lemma CatalogServesPage(items: seq<Product>, n: nat, skip: Int64)
    requires |items| < TwoTo63
    requires 0 <= skip <= |items|
    ensures var count := Min(PageSize as int, |items| - skip);
      Serve(Catalog(items), n, PageRequest(PageSize, skip))
        == Response(false, "", None, ProductResponse(items[skip..skip + count], |items|, skip, count))
  {
  }

  /** A catalog answers the unparameterised listing request without error. */
  lemma CatalogServesList(items: seq<Product>)
    requires |items| < TwoTo63
    ensures ErrorOf(Serve(Catalog(items), 0, ListRequest())).None?
  {
  }
}
