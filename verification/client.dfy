/** The product client (dummy/products.go, lines 82-159): the paginating
    listing and the four single-item operations, run against an abstract server.
 */
module Client {
  import opened GoTypes
  import opened Products
  import opened Errors
  import opened Http
  import opened Server

  /** The products of a run of pages, in page order. */
  function Flatten(pages: seq<ProductResponse>): seq<Product>
  {
    if |pages| == 0 then [] else Flatten(pages[..|pages| - 1]) + pages[|pages| - 1].products
  }

  /** The offset the client holds after reading `pages`: their reported
      limits added up in Go `int` arithmetic. */
  function SumLimits(pages: seq<ProductResponse>): Int64
  {
    if |pages| == 0 then 0
    else AddInt(SumLimits(pages[..|pages| - 1]), UintToInt(pages[|pages| - 1].limit))
  }

  /** The decoded pages of the loop's responses: all replies but the discarded first one. */
  function LoopPages(rs: seq<Response<ProductResponse>>): (pages: seq<ProductResponse>)
    requires |rs| >= 1
    ensures |pages| == |rs| - 1
  {
    seq(|rs| - 1, k requires 0 <= k < |rs| - 1 => rs[k + 1].decoded)
  }

  /** The record the loop keeps of a listing in progress, given the requests
      sent so far and the replies `rs` they drew: all replies succeeded, the
      first request was the unparameterised one, each later one asked for 30
      items at the offset the earlier loop pages add up to, and `pages` holds
      the loop's decoded pages, every one but the newest full. */
  ghost predicate Walked(requests: seq<Request>, rs: seq<Response<ProductResponse>>, pages: seq<ProductResponse>)
  {
    && |requests| >= 1 && requests[0] == ListRequest()
    && |rs| == |requests|
    && |pages| == |requests| - 1
    && (forall k :: 0 <= k < |rs| ==> ErrorOf(rs[k]).None?)
    && (forall k :: 1 <= k < |rs| ==> pages[k - 1] == rs[k].decoded)
    && (forall k :: 1 <= k < |requests| ==> requests[k] == PageRequest(PageSize, SumLimits(pages[..k - 1])))
    && (forall k :: 0 <= k < |pages| - 1 ==> UintToInt(pages[k].limit) == PageSize)
  }

  /** The loop may go on only while the newest page was full. */
  ghost predicate Continues(pages: seq<ProductResponse>)
  {
    |pages| == 0 || UintToInt(pages[|pages| - 1].limit) == PageSize
  }

  lemma WalkedStep(requests: seq<Request>, rs: seq<Response<ProductResponse>>, pages: seq<ProductResponse>,
                   req: Request, r: Response<ProductResponse>)
    requires Walked(requests, rs, pages) && Continues(pages)
    requires req == PageRequest(PageSize, SumLimits(pages))
    requires ErrorOf(r).None?
    ensures Walked(requests + [req], rs + [r], pages + [r.decoded])
  {
    var pages' := pages + [r.decoded];
    var requests' := requests + [req];
    assert pages'[..|pages|] == pages;
    forall k | 1 <= k < |requests'|
      ensures requests'[k] == PageRequest(PageSize, SumLimits(pages'[..k - 1]))
    {
      assert pages'[..k - 1] == pages[..k - 1];
    }
  }

  /** A walk whose next request draws reply r: the trace facts the listing promises. */
  lemma WalkedThenSent(requests: seq<Request>, rs: seq<Response<ProductResponse>>, pages: seq<ProductResponse>,
                       req: Request, r: Response<ProductResponse>)
    requires Walked(requests, rs, pages) && Continues(pages)
    requires req == PageRequest(PageSize, SumLimits(pages))
    ensures var requests', rs' := requests + [req], rs + [r];
      && (forall k :: 1 <= k < |rs'| ==> requests'[k] == PageRequest(PageSize, SumLimits(LoopPages(rs')[..k - 1])))
      && (forall k :: 0 <= k < |rs'| - 1 ==> ErrorOf(rs'[k]).None?)
      && (forall k :: 1 <= k < |rs'| - 1 ==> UintToInt(rs'[k].decoded.limit) == PageSize)
  {
    SentRequests(requests, rs, pages, req, r);
    var rs' := rs + [r];
    assert forall k :: 0 <= k < |rs'| - 1 ==> rs'[k] == rs[k];
  }

  /** The requests of a walk plus its next one are still the requests at the summed offsets. */
  lemma SentRequests(requests: seq<Request>, rs: seq<Response<ProductResponse>>, pages: seq<ProductResponse>,
                     req: Request, r: Response<ProductResponse>)
    requires Walked(requests, rs, pages)
    requires req == PageRequest(PageSize, SumLimits(pages))
    ensures var requests', rs' := requests + [req], rs + [r];
      forall k :: 1 <= k < |rs'| ==> requests'[k] == PageRequest(PageSize, SumLimits(LoopPages(rs')[..k - 1]))
  {
    var requests', rs' := requests + [req], rs + [r];
    var pages' := LoopPages(rs');
    assert pages'[..|pages|] == pages;
    forall k | 1 <= k < |rs'|
      ensures requests'[k] == PageRequest(PageSize, SumLimits(pages'[..k - 1]))
    {
      if k < |requests| {
        assert requests'[k] == requests[k];
        assert pages'[..k - 1] == pages[..k - 1];
      } else {
        assert requests'[k] == req;
      }
    }
  }

  /** A walk that has stopped on a page that was not full: the trace facts the listing promises. */
  lemma WalkedThenStopped(requests: seq<Request>, rs: seq<Response<ProductResponse>>, pages: seq<ProductResponse>)
    requires Walked(requests, rs, pages) && !Continues(pages)
    ensures pages == LoopPages(rs)
    ensures forall k :: 1 <= k < |rs| ==> requests[k] == PageRequest(PageSize, SumLimits(LoopPages(rs)[..k - 1]))
    ensures |rs| >= 2 && UintToInt(rs[|rs| - 1].decoded.limit) != PageSize
  {
    assert pages == LoopPages(rs);
  }

  /** One loop round against a catalog, from an offset of |pages| full pages:
      the page arrives without error, extends the products by the next items,
      and either is full again or ends at the catalog's end. */
  lemma CatalogStep(items: seq<Product>, n: nat, skip: Int64, full: nat, products: seq<Product>)
    requires |items| < TwoTo63
    requires 0 <= skip <= |items| && skip == 30 * full && products == items[..skip]
    ensures var res := Serve(Catalog(items), n, PageRequest(PageSize, skip));
      var limit := UintToInt(res.decoded.limit);
      && ErrorOf(res).None?
      && 0 <= limit <= PageSize
      && AddInt(skip, limit) == skip + limit <= |items|
      && products + res.decoded.products == items[..skip + limit]
      && (limit == PageSize ==> skip + limit == 30 * (full + 1))
      && (limit != PageSize ==> skip + limit == |items| && full + 1 == |items| / 30 + 1)
  {
    CatalogServesPage(items, n, skip);
    var count := Min(PageSize as int, |items| - skip);
    assert items[..skip] + items[skip..skip + count] == items[..skip + count];
  }

  /** What a finished listing promises about the requests it sent, the replies
      they drew and the result it returns:
      - the first request is the unparameterised `GET /products`;
      - every later request asks for 30 items at the offset the earlier loop
        pages add up to;
      - every reply before the last one succeeded, and every loop page but the
        last reported a limit of exactly 30;
      - the last reply decides the outcome: its error, if it has one, is the
        result's error and the products are empty; otherwise it is a loop page
        whose limit is not 30 and the products are those of all loop pages, in order. */
  ghost predicate ListingTrace(server: Server, requests: seq<Request>, ret: Ret<seq<Product>>)
    requires server.WellFormed()
  {
    && |requests| >= 1 && requests[0] == ListRequest()
    && var rs := Replies(server, requests);
    && (forall k :: 1 <= k < |rs| ==> requests[k] == PageRequest(PageSize, SumLimits(LoopPages(rs)[..k - 1])))
    && (forall k :: 0 <= k < |rs| - 1 ==> ErrorOf(rs[k]).None?)
    && (forall k :: 1 <= k < |rs| - 1 ==> UintToInt(rs[k].decoded.limit) == PageSize)
    && ret.err == ErrorOf(rs[|rs| - 1])
    && (ret.err.Some? ==> ret.value == [])
    && (ret.err.None? ==>
          && |rs| >= 2
          && UintToInt(rs[|rs| - 1].decoded.limit) != PageSize
          && ret.value == Flatten(LoopPages(rs)))
  }

  /** The first request failed. */
  lemma TraceOfFirstFailure(server: Server, req: Request, ret: Ret<seq<Product>>)
    requires server.WellFormed()
    requires req == ListRequest()
    requires ret.err == ErrorOf(Serve(server, 0, req)) && ret.err.Some? && ret.value == []
    ensures ListingTrace(server, [req], ret)
  {
  }

  /** A loop request failed after a walk that could go on. */
  lemma TraceOfLoopFailure(server: Server, requests: seq<Request>, rs: seq<Response<ProductResponse>>,
                           pages: seq<ProductResponse>, req: Request, ret: Ret<seq<Product>>)
    requires server.WellFormed()
    requires Answered(server, requests, rs)
    requires Walked(requests, rs, pages) && Continues(pages)
    requires req == PageRequest(PageSize, SumLimits(pages))
    requires ret.err == ErrorOf(Serve(server, |requests|, req)) && ret.err.Some? && ret.value == []
    ensures ListingTrace(server, requests + [req], ret)
  {
    AnsweredAppend(server, requests, rs, req);
    AnsweredReplies(server, requests + [req], rs + [Serve(server, |requests|, req)]);
    WalkedThenSent(requests, rs, pages, req, Serve(server, |requests|, req));
  }

  /** The walk stopped on a page that was not full. */
  lemma TraceOfStop(server: Server, requests: seq<Request>, rs: seq<Response<ProductResponse>>,
                    pages: seq<ProductResponse>)
    requires server.WellFormed()
    requires Answered(server, requests, rs)
    requires Walked(requests, rs, pages) && !Continues(pages)
    ensures ListingTrace(server, requests, Ret(Flatten(pages), None))
  {
    AnsweredReplies(server, requests, rs);
    WalkedThenStopped(requests, rs, pages);
  }

  /** The catalog part of the loop's record: the products are the catalog's
      first `skip` items; while the loop goes on it has read only full pages,
      and once it stops it has read the whole catalog in |items| / 30 + 1 pages. */
  ghost predicate CatalogProgress(items: seq<Product>, pages: seq<ProductResponse>, skip: Int64,
                                  limit: Int64, products: seq<Product>)
  {
    && 0 <= skip <= |items| && products == items[..skip]
    && (limit == PageSize ==> skip == 30 * |pages|)
    && (limit != PageSize ==> skip == |items| && |pages| == |items| / 30 + 1)
  }

  /** The loop invariant of GetProducts: the exchange so far, and the client's
      `skip`, `limit` and product accumulator as functions of the loop pages. */
  ghost predicate Paging(server: Server, requests: seq<Request>, rs: seq<Response<ProductResponse>>,
                         pages: seq<ProductResponse>, skip: Int64, limit: Int64, products: seq<Product>)
    requires server.WellFormed()
  {
    && Answered(server, requests, rs)
    && Walked(requests, rs, pages)
    && skip == SumLimits(pages)
    && limit == (if |pages| == 0 then PageSize else UintToInt(pages[|pages| - 1].limit))
    && products == Flatten(pages)
    && (server.Scripted? ==> |requests| <= |server.script|)
    && (server.Catalog? ==> CatalogProgress(server.items, pages, skip, limit, products))
  }

  /** The loop's termination measure: the unused script, or the unread catalog. */
  ghost function Remaining(server: Server, requests: seq<Request>, skip: Int64, limit: Int64): nat
  {
    match server
    case Scripted(script) => if |requests| <= |script| then |script| - |requests| else 0
    case Catalog(items) => if limit == PageSize && 0 <= skip <= |items| then |items| - skip + 1 else 0
  }

  /** After a successful first request the loop starts with nothing read. */
  lemma PagingStarts(server: Server)
    requires server.WellFormed()
    requires ErrorOf(Serve(server, 0, ListRequest())).None?
    ensures Paging(server, [ListRequest()], [Serve(server, 0, ListRequest())], [], 0, PageSize, [])
  {
    assert [ListRequest()][..0] == [];
  }

  /** A catalog never fails the first request. */
  lemma FirstFailureIsScripted(server: Server, ret: Ret<seq<Product>>)
    requires server.WellFormed()
    requires ret.err == ErrorOf(Serve(server, 0, ListRequest())) && ret.err.Some? && ret.value == []
    ensures ListingTrace(server, [ListRequest()], ret)
    ensures server.Scripted?
  {
    TraceOfFirstFailure(server, ListRequest(), ret);
    if server.Catalog? {
      CatalogServesList(server.items);
    }
  }

  /** One successful loop round keeps the invariant and uses up part of the measure. */
  lemma PagingRound(server: Server, requests: seq<Request>, rs: seq<Response<ProductResponse>>,
                    pages: seq<ProductResponse>, skip: Int64, limit: Int64, products: seq<Product>)
    requires server.WellFormed()
    requires Paging(server, requests, rs, pages, skip, limit, products) && limit == PageSize
    requires ErrorOf(Serve(server, |requests|, PageRequest(limit, skip))).None?
    ensures var req := PageRequest(limit, skip);
      var res := Serve(server, |requests|, req);
      var limit' := UintToInt(res.decoded.limit);
      var skip' := AddInt(skip, limit');
      && Paging(server, requests + [req], rs + [res], pages + [res.decoded], skip', limit', products + res.decoded.products)
      && Remaining(server, requests + [req], skip', limit') < Remaining(server, requests, skip, limit)
  {
    var req := PageRequest(limit, skip);
    var res := Serve(server, |requests|, req);
    AnsweredAppend(server, requests, rs, req);
    WalkedStep(requests, rs, pages, req, res);
    assert (pages + [res.decoded])[..|pages|] == pages;
    if server.Catalog? {
      CatalogStep(server.items, |requests|, skip, |pages|, products);
    }
  }

  /** A failed loop round ends the listing with that round's error; a catalog never fails. */
  lemma PagingFails(server: Server, requests: seq<Request>, rs: seq<Response<ProductResponse>>,
                    pages: seq<ProductResponse>, skip: Int64, limit: Int64, products: seq<Product>,
                    ret: Ret<seq<Product>>)
    requires server.WellFormed()
    requires Paging(server, requests, rs, pages, skip, limit, products) && limit == PageSize
    requires ret.err == ErrorOf(Serve(server, |requests|, PageRequest(limit, skip)))
    requires ret.err.Some? && ret.value == []
    ensures ListingTrace(server, requests + [PageRequest(limit, skip)], ret)
    ensures server.Scripted?
  {
    TraceOfLoopFailure(server, requests, rs, pages, PageRequest(limit, skip), ret);
  }

  /** When the loop stops, the accumulated products are the listing's result. */
  lemma PagingStops(server: Server, requests: seq<Request>, rs: seq<Response<ProductResponse>>,
                    pages: seq<ProductResponse>, skip: Int64, limit: Int64, products: seq<Product>)
    requires server.WellFormed()
    requires Paging(server, requests, rs, pages, skip, limit, products) && limit != PageSize
    ensures ListingTrace(server, requests, Ret(products, None))
    ensures server.Catalog? ==> products == server.items && |requests| == |server.items| / 30 + 2
  {
    TraceOfStop(server, requests, rs, pages);
  }

  /** `GetProducts`: lists the whole catalog by walking it 30 items at a time.

      It first sends an unparameterised `GET /products` whose page is thrown
      away, then requests `limit=30&skip=<offset>` for as long as the previous
      page reported a limit of exactly 30, advancing the offset by each reported
      limit. The first failing response ends the call with no products.
      `requests` is the sequence of requests sent, in order. */
  method GetProducts(server: Server) returns (ret: Ret<seq<Product>>, requests: seq<Request>)
    requires server.WellFormed()
    ensures ListingTrace(server, requests, ret)
    // a well-behaved catalog is listed completely, in order
    ensures server.Catalog? ==>
      && ret == Ret(server.items, None)
      && |requests| == |server.items| / 30 + 2
  {
    var skip: Int64, limit: Int64 := 0, PageSize;
    var req := ListRequest();
    var res := Serve(server, 0, req);
    requests := [req];
    if res.isError {
      ret := Ret([], Some(Remote(DummyError(res.body))));
      FirstFailureIsScripted(server, ret);
      return;
    }
    if res.err.Some? {
      ret := Ret([], Some(Transport(res.err.value)));
      FirstFailureIsScripted(server, ret);
      return;
    }
    var products: seq<Product> := [];
    ghost var rs: seq<Response<ProductResponse>> := [res];
    ghost var pages: seq<ProductResponse> := [];
    PagingStarts(server);

    while limit == PageSize
      invariant Paging(server, requests, rs, pages, skip, limit, products)
      decreases Remaining(server, requests, skip, limit)
    {
      req := PageRequest(limit, skip);
      res := Serve(server, |requests|, req);
      if res.isError {
        ret := Ret([], Some(Remote(DummyError(res.body))));
        PagingFails(server, requests, rs, pages, skip, limit, products, ret);
        requests := requests + [req];
        return;
      }
      if res.err.Some? {
        ret := Ret([], Some(Transport(res.err.value)));
        PagingFails(server, requests, rs, pages, skip, limit, products, ret);
        requests := requests + [req];
        return;
      }
      PagingRound(server, requests, rs, pages, skip, limit, products);
      requests := requests + [req];
      rs := rs + [res];
      pages := pages + [res.decoded];
      skip := AddInt(skip, UintToInt(res.decoded.limit));
      limit := UintToInt(res.decoded.limit);
      products := products + res.decoded.products;
    }
    PagingStops(server, requests, rs, pages, skip, limit, products);
    ret := Ret(products, None);
  }

  /** `GetProduct(id)`: `GET /products/<id>`. The decoded product on success;
      otherwise the zero product with the error, a server error taking
      precedence over a library error. */
  function GetProduct(exchange: Request -> Response<Product>, id: Int64): (r: Ret<Product>)
    ensures var res := exchange(Request(Get, ItemPath(id), map[], None));
      && r.err == ErrorOf(res)
      && (r.err.None? ==> r.value == res.decoded)
      && (r.err.Some? ==> r.value == ZeroProduct)
  {
    Settle(exchange(GetRequest(id)), ZeroProduct)
  }

  /** `UploadProduct(prod)`: `POST /products/add` with the product as body;
      the server's echo of the created product, or the zero product with the error. */
  function UploadProduct(exchange: Request -> Response<Product>, prod: Product): (r: Ret<Product>)
    ensures var res := exchange(Request(Post, AddPath, map[], Some(prod)));
      && r.err == ErrorOf(res)
      && (r.err.None? ==> r.value == res.decoded)
      && (r.err.Some? ==> r.value == ZeroProduct)
  {
    Settle(exchange(UploadRequest(prod)), ZeroProduct)
  }

  /** `UpdateProduct(id, prod)`: `PATCH /products/<id>` with the product as body. */
  function UpdateProduct(exchange: Request -> Response<Product>, id: Int64, prod: Product): (r: Ret<Product>)
    ensures var res := exchange(Request(Patch, ItemPath(id), map[], Some(prod)));
      && r.err == ErrorOf(res)
      && (r.err.None? ==> r.value == res.decoded)
      && (r.err.Some? ==> r.value == ZeroProduct)
  {
    Settle(exchange(UpdateRequest(id, prod)), ZeroProduct)
  }

  /** `DeleteProduct(id)`: `DELETE /products/<id>`. */
  function DeleteProduct(exchange: Request -> Response<Product>, id: Int64): (r: Ret<Product>)
    ensures var res := exchange(Request(Delete, ItemPath(id), map[], None));
      && r.err == ErrorOf(res)
      && (r.err.None? ==> r.value == res.decoded)
      && (r.err.Some? ==> r.value == ZeroProduct)
  {
    Settle(exchange(DeleteRequest(id)), ZeroProduct)
  }

  /** A server that creates and updates by echoing the submitted product back
      makes UploadProduct and UpdateProduct return exactly what was sent. */
  lemma EchoRoundTrip(exchange: Request -> Response<Product>, prod: Product, id: Int64)
    requires forall req: Request :: req.body.Some? ==> exchange(req) == Response(false, "", None, req.body.value)
    ensures UploadProduct(exchange, prod) == Ret(prod, None)
    ensures UpdateProduct(exchange, id, prod) == Ret(prod, None)
  {
    assert exchange(UploadRequest(prod)) == Response(false, "", None, prod);
    assert exchange(UpdateRequest(id, prod)) == Response(false, "", None, prod);
  }

  /** The single-item operations address the item they are given: the path
      reads back as that id, and never as the upload path. */
  lemma ItemOperationsAddressTheItem(id: Int64, prod: Product)
    ensures ItemIdOf(GetRequest(id).path) == Some(id as int)
    ensures ItemIdOf(UpdateRequest(id, prod).path) == Some(id as int)
    ensures ItemIdOf(DeleteRequest(id).path) == Some(id as int)
    ensures ItemIdOf(UploadRequest(prod).path) == None
  {
    ItemPathRoundTrip(id, id);
    assert AddPath[|ItemPathPrefix|..] == "add";
  }
}
