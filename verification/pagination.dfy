/** Properties of the product client that relate several calls or hold for
    every server: the offsets the listing sends, the pages it keeps, and the
    uniqueness of the trace it leaves.
 */
module Pagination {
  import opened GoTypes
  import opened Products
  import opened Errors
  import opened Http
  import opened Server
  import opened Client

  /** The reported limits of `pages` added up exactly, each read as a Go int. */
  function RawSum(pages: seq<ProductResponse>): int
  {
    if |pages| == 0 then 0 else RawSum(pages[..|pages| - 1]) + UintToInt(pages[|pages| - 1].limit)
  }

  /** The client's offset is the sum of the reported limits, reduced to 64 bits. */
  lemma {:induction false} SumLimitsWraps(pages: seq<ProductResponse>)
    ensures SumLimits(pages) == Wrap64(RawSum(pages))
  {
    if |pages| > 0 {
      var init := pages[..|pages| - 1];
      var last := UintToInt(pages[|pages| - 1].limit);
      SumLimitsWraps(init);
      GoIntIsTwosComplement(0, SumLimits(init), last);
      Wrap64Absorbs(RawSum(init), last);
    }
  }

  /** After n full pages the client's offset is 30 * n (reduced to 64 bits). */
  lemma {:induction false} FullPagesOffset(pages: seq<ProductResponse>)
    requires forall k :: 0 <= k < |pages| ==> UintToInt(pages[k].limit) == PageSize
    ensures SumLimits(pages) == Wrap64(30 * |pages|)
  {
    if |pages| > 0 {
      var init := pages[..|pages| - 1];
      FullPagesOffset(init);
      GoIntIsTwosComplement(0, SumLimits(init), 30);
      Wrap64Absorbs(30 * |init|, 30);
    }
  }

  /** The loop request with index k (k >= 1) asks for 30 items at offset
      30 * (k - 1): the limit is always 30 and every earlier loop page was full. */
  lemma LoopRequestOffsets(server: Server, requests: seq<Request>, ret: Ret<seq<Product>>)
    requires server.WellFormed() && ListingTrace(server, requests, ret)
    ensures forall k :: 1 <= k < |requests| ==> requests[k] == PageRequest(PageSize, Wrap64(30 * (k - 1)))
  {
    var pages := LoopPages(Replies(server, requests));
    TraceFullPages(server, requests, ret);
    forall k | 1 <= k < |requests|
      ensures requests[k] == PageRequest(PageSize, Wrap64(30 * (k - 1)))
    {
      FullPrefixOffset(pages, k - 1);
    }
  }

  /** Every loop page of a listing trace but the last was full. */
  lemma TraceFullPages(server: Server, requests: seq<Request>, ret: Ret<seq<Product>>)
    requires server.WellFormed() && ListingTrace(server, requests, ret)
    ensures var pages := LoopPages(Replies(server, requests));
      forall j :: 0 <= j < |pages| - 1 ==> UintToInt(pages[j].limit) == PageSize
  {
    var rs := Replies(server, requests);
    var pages := LoopPages(rs);
    forall j | 0 <= j < |pages| - 1
      ensures UintToInt(pages[j].limit) == PageSize
    {
      assert pages[j] == rs[j + 1].decoded;
    }
  }

  /** The offset after the first m pages, when those m pages were all full. */
  lemma FullPrefixOffset(pages: seq<ProductResponse>, m: nat)
    requires m <= |pages|
    requires forall j :: 0 <= j < m ==> UintToInt(pages[j].limit) == PageSize
    ensures SumLimits(pages[..m]) == Wrap64(30 * m)
  {
    FullPagesOffset(pages[..m]);
  }

  /** Flattening respects concatenation: the products of two runs of pages are
      the first run's products followed by the second's. */
  lemma {:induction false} FlattenAppend(a: seq<ProductResponse>, b: seq<ProductResponse>)
    ensures Flatten(a + b) == Flatten(a) + Flatten(b)
    decreases |b|
  {
    if |b| > 0 {
      var b' := b[..|b| - 1];
      var last := b[|b| - 1];
      assert a + b == (a + b') + [last];
      assert (a + b)[..|a + b| - 1] == a + b';
      FlattenAppend(a, b');
      assert Flatten(a + b) == Flatten(a + b') + last.products;
      assert Flatten(b) == Flatten(b') + last.products;
    } else {
      assert a + b == a;
    }
  }

  /** The products of a listing are each loop page's products in order: page k
      contributes its products right after those of the pages before it. */
  lemma FlattenIndex(pages: seq<ProductResponse>, k: nat)
    requires k < |pages|
    ensures Flatten(pages) == Flatten(pages[..k]) + pages[k].products + Flatten(pages[k + 1..])
  {
    var front, rest := pages[..k + 1], pages[k + 1..];
    assert pages == front + rest;
    FlattenAppend(front, rest);
    assert front[..k] == pages[..k];
  }

  /** Two request sequences that agree on their first n requests draw the same first n replies. */
  lemma RepliesPrefix(server: Server, r1: seq<Request>, r2: seq<Request>, n: nat)
    requires server.WellFormed()
    requires n <= |r1| && n <= |r2| && r1[..n] == r2[..n]
    ensures forall k :: 0 <= k < n ==> Replies(server, r1)[k] == Replies(server, r2)[k]
  {
    forall k | 0 <= k < n
      ensures Replies(server, r1)[k] == Replies(server, r2)[k]
    {
      assert r1[k] == r1[..n][k];
    }
  }

  /** The requests of a listing that sends n requests in all: the opening
      `GET /products`, then pages of 30 at offsets 0, 30, 60, ... */
  function ListingRequests(n: nat): (rs: seq<Request>)
    requires n >= 1
    ensures |rs| == n && rs[0] == ListRequest()
  {
    [ListRequest()] + seq(n - 1, k requires 0 <= k < n - 1 => PageRequest(PageSize, Wrap64(30 * k)))
  }

  /** A shorter listing's requests are a prefix of a longer one's. */
  lemma ListingRequestsPrefix(m: nat, n: nat)
    requires 1 <= m <= n
    ensures ListingRequests(m) == ListingRequests(n)[..m]
  {
  }

  /** Every listing trace sends the canonical requests: which requests it
      sends depends only on how many it sends. */
  lemma TraceRequestsCanonical(server: Server, requests: seq<Request>, ret: Ret<seq<Product>>)
    requires server.WellFormed() && ListingTrace(server, requests, ret)
    ensures requests == ListingRequests(|requests|)
  {
    LoopRequestOffsets(server, requests, ret);
  }

  /** A listing trace is never a strict prefix of another listing trace of
      the same server: where the shorter one stops, the longer one went on. */
  lemma TraceNotPrefix(server: Server, r1: seq<Request>, ret1: Ret<seq<Product>>,
                       r2: seq<Request>, ret2: Ret<seq<Product>>)
    requires server.WellFormed()
    requires ListingTrace(server, r1, ret1) && ListingTrace(server, r2, ret2)
    ensures |r1| < |r2| ==> r1 != r2[..|r1|]
  {
    if |r1| < |r2| && r1 == r2[..|r1|] {
      var m := |r1|;
      RepliesPrefix(server, r1, r2, m);
      assert false;
    }
  }

  /** A listing's trace is determined by the server: there is only one
      sequence of requests and one result that satisfy ListingTrace. */
  lemma ListingTraceUnique(server: Server, r1: seq<Request>, ret1: Ret<seq<Product>>,
                           r2: seq<Request>, ret2: Ret<seq<Product>>)
    requires server.WellFormed()
    requires ListingTrace(server, r1, ret1) && ListingTrace(server, r2, ret2)
    ensures r1 == r2 && ret1 == ret2
  {
    SameRequests(server, r1, ret1, r2, ret2);
    assert r1 == r2;
  }

  /** Two listing traces of the same server send the same requests. */
  lemma SameRequests(server: Server, r1: seq<Request>, ret1: Ret<seq<Product>>,
                     r2: seq<Request>, ret2: Ret<seq<Product>>)
    requires server.WellFormed()
    requires ListingTrace(server, r1, ret1) && ListingTrace(server, r2, ret2)
    ensures r1 == r2
  {
    TraceRequestsCanonical(server, r1, ret1);
    TraceRequestsCanonical(server, r2, ret2);
    if |r1| <= |r2| {
      ListingRequestsPrefix(|r1|, |r2|);
      TraceNotPrefix(server, r1, ret1, r2, ret2);
    } else {
      ListingRequestsPrefix(|r2|, |r1|);
      TraceNotPrefix(server, r2, ret2, r1, ret1);
    }
  }

  /** The page the opening `GET /products` decodes never reaches the result:
      a server that answers it with any other page (same status, same error)
      admits exactly the same trace. Together with ListingTraceUnique, the
      listing's requests and result do not depend on that page at all. */
  lemma OpeningPageDiscarded(script: seq<Response<ProductResponse>>, page: ProductResponse,
                             requests: seq<Request>, ret: Ret<seq<Product>>)
    requires |script| >= 1 && ListingTrace(Scripted(script), requests, ret)
    ensures ListingTrace(Scripted(script[0 := script[0].(decoded := page)]), requests, ret)
  {
    OpeningPageReplies(script, page, requests);
  }

  /** Replacing the opening page changes no loop page and no reply's error. */
  lemma OpeningPageReplies(script: seq<Response<ProductResponse>>, page: ProductResponse, requests: seq<Request>)
    requires |script| >= 1 && |requests| >= 1
    ensures var rs, rs' := Replies(Scripted(script), requests),
                           Replies(Scripted(script[0 := script[0].(decoded := page)]), requests);
      && LoopPages(rs) == LoopPages(rs')
      && (forall k :: 0 <= k < |rs| ==> ErrorOf(rs[k]) == ErrorOf(rs'[k]))
  {
    var script' := script[0 := script[0].(decoded := page)];
    var rs, rs' := Replies(Scripted(script), requests), Replies(Scripted(script'), requests);
    assert LoopPages(rs) == LoopPages(rs');
  }

  /** A scripted server answers request k with its k-th response, whatever was asked. */
  lemma ScriptedReply(script: seq<Response<ProductResponse>>, requests: seq<Request>, k: nat)
    requires k < |requests| && k < |script|
    ensures Replies(Scripted(script), requests)[k] == script[k]
  {
  }

  /** A scripted server whose first n responses succeed, whose loop pages are
      full up to a last one that is not: the listing sends exactly n requests
      and returns the products of responses 1 to n - 1, in order. */
  lemma ScriptedListingStops(script: seq<Response<ProductResponse>>, n: nat,
                             requests: seq<Request>, ret: Ret<seq<Product>>)
    requires 2 <= n <= |script|
    requires forall k :: 0 <= k < n ==> ErrorOf(script[k]).None?
    requires forall k :: 1 <= k < n - 1 ==> UintToInt(script[k].decoded.limit) == PageSize
    requires UintToInt(script[n - 1].decoded.limit) != PageSize
    requires ListingTrace(Scripted(script), requests, ret)
    ensures |requests| == n
    ensures ret == Ret(Flatten(LoopPages(script[..n])), None)
  {
    var rs := Replies(Scripted(script), requests);
    if |requests| < n {
      assert false;
    } else if |requests| > n {
      ScriptedReply(script, requests, n - 1);
      assert false;
    }
    assert rs == script[..n];
  }

  /** Past the end of its script, a scripted server is unreachable. */
  lemma ScriptedPastEnd(script: seq<Response<ProductResponse>>, requests: seq<Request>, k: nat)
    requires |script| <= k < |requests|
    ensures Replies(Scripted(script), requests)[k] == Unreachable
  {
  }

  /** The stop rule looks only at the reported limit. A server whose every
      reply succeeds and reports a limit of 30, whatever offset is asked for,
      is never left by the loop: the listing here ends only because the script
      runs out, after |script| + 1 requests, with the transport error of the
      request past the end. */
  lemma FullPagesNeverStop(script: seq<Response<ProductResponse>>, requests: seq<Request>, ret: Ret<seq<Product>>)
    requires forall k :: 0 <= k < |script| ==> ErrorOf(script[k]).None?
    requires forall k :: 1 <= k < |script| ==> UintToInt(script[k].decoded.limit) == PageSize
    requires ListingTrace(Scripted(script), requests, ret)
    ensures |requests| == |script| + 1
    ensures ret == Ret([], Some(Transport(Unreachable.err.value)))
  {
    if |requests| <= |script| {
      assert false;
    } else if |requests| > |script| + 1 {
      ScriptedPastEnd(script, requests, |script|);
      assert false;
    }
    ScriptedPastEnd(script, requests, |script|);
  }
}
