/** Listings against particular servers: the catalog the provider's acceptance
    test reads, a catalog that fits on one page, and a walk that fails after it
    has already collected a page.
 */
module Listings {
  import opened GoTypes
  import opened Products
  import opened Errors
  import opened Http
  import opened Server
  import opened Client
  import opened Pagination

  /** n products with ids 1..n, every other field at its zero value. */
  function Numbered(n: nat): (items: seq<Product>)
    requires n < TwoTo63
    ensures |items| == n
    ensures forall i :: 0 <= i < n ==> items[i].id == i + 1
  {
    seq(n, i requires 0 <= i < n => ZeroProduct.(id := i + 1))
  }

  /** The acceptance test's catalog of 194 products: all of them come back,
      the first with id 1, after the opening request and 7 pages. */
  method ListAcceptanceCatalog() returns (ret: Ret<seq<Product>>, requests: seq<Request>)
    ensures ret.err.None?
    ensures |ret.value| == 194 && ret.value[0].id == 1
    ensures |requests| == 8
  {
    var items := Numbered(194);
    ret, requests := GetProducts(Catalog(items));
  }

  /** A server whose first page is short: the listing still sends two
      requests, the discarded opening one and one page request, and returns
      exactly the page's products. */
  method ListShortPage(page: seq<Product>) returns (ret: Ret<seq<Product>>, requests: seq<Request>)
    requires |page| < 30
    ensures ret.err == None
    ensures ret.value == page
    ensures requests == [ListRequest(), PageRequest(PageSize, 0)]
  {
    var opening := Response(false, "", None, EmptyPage);
    var reply := Response(false, "", None, ProductResponse(page, |page|, 0, |page|));
    var server := Scripted([opening, reply]);
    ret, requests := GetProducts(server);
    var rs := Replies(server, requests);
    assert rs[1] == reply;
    assert LoopPages(rs)[..0] == [];
    assert LoopPages(rs) == [reply.decoded];
    assert Flatten([reply.decoded]) == Flatten([]) + page;
    assert requests[1] == PageRequest(PageSize, SumLimits(LoopPages(rs)[..0]));
    assert requests == [requests[0], requests[1]];
  }

  /** A server that fails on the second page request: the page already read
      is dropped and the server's message comes back as a DummyError, even
      though the library also reported an error. */
  method ListFailingPage(page: seq<Product>, message: string) returns (ret: Ret<seq<Product>>, requests: seq<Request>)
    requires |page| == 30
    ensures ret == Ret([], Some(Remote(DummyError(message))))
    ensures |requests| == 3 && requests[2] == PageRequest(PageSize, 30)
  {
    var opening := Response(false, "", None, EmptyPage);
    var full := Response(false, "", None, ProductResponse(page, 194, 0, 30));
    var failure := Response(true, message, Some(TransportError("timeout")), EmptyPage);
    var server := Scripted([opening, full, failure]);
    ret, requests := GetProducts(server);
    var rs := Replies(server, requests);
    assert rs[1] == full;
    assert LoopPages(rs)[..1] == [full.decoded];
  }

  /** Pages of 30, 30 and 14 items: 74 products in page order, after the
      opening request and three page requests. */
  method ListThreePages(p1: seq<Product>, p2: seq<Product>, p3: seq<Product>)
    returns (ret: Ret<seq<Product>>, requests: seq<Request>)
    requires |p1| == 30 && |p2| == 30 && |p3| == 14
    ensures ret.err == None
    ensures ret.value == p1 + p2 + p3 && |ret.value| == 74
    ensures |requests| == 4
  {
    var opening := Response(false, "", None, EmptyPage);
    var r1 := Response(false, "", None, ProductResponse(p1, 74, 0, 30));
    var r2 := Response(false, "", None, ProductResponse(p2, 74, 30, 30));
    var r3 := Response(false, "", None, ProductResponse(p3, 74, 60, 14));
    var script := [opening, r1, r2, r3];
    ret, requests := GetProducts(Scripted(script));
    ScriptedListingStops(script, 4, requests, ret);
    assert script[..4] == script;
    assert LoopPages(script) == [r1.decoded, r2.decoded, r3.decoded];
    FlattenThree(r1.decoded, r2.decoded, r3.decoded);
  }

  lemma FlattenThree(a: ProductResponse, b: ProductResponse, c: ProductResponse)
    ensures Flatten([a, b, c]) == a.products + b.products + c.products
  {
    assert [a][..0] == [];
    assert Flatten([a]) == a.products;
    assert [a, b][..1] == [a];
    assert Flatten([a, b]) == a.products + b.products;
    assert [a, b, c][..2] == [a, b];
  }
}
