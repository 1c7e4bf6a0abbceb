# DummyJSON product client, modelled in Dafny

The Go package `dummyjson` (`dummy/products.go`) is the client behind a
Terraform provider for the DummyJSON demo API. It has two parts:

- **`GetProducts`** lists the whole remote product catalog. It sends one
  unparameterised `GET /products` and discards that page (as long as every
  later response is decoded; see "Left out"). It then requests
  `GET /products?limit=30&skip=<offset>` for as long as the previous page
  reported a `limit` of exactly 30. Each round adds the reported limit to the
  offset and appends the page's products.
- **`GetProduct`, `UploadProduct`, `UpdateProduct` and `DeleteProduct`**
  each make one request: `/products/<id>` with GET, PATCH or DELETE, or
  `/products/add` with POST.

Every operation checks the response the same way:

- An error status from the HTTP library (resty's `IsError`) becomes a
  `DummyError` carrying the response body verbatim.
- Otherwise, the library's own error is passed on unchanged.
- The error status is checked first, so it wins when both are present.

On failure, the listing returns a nil slice and the single-item operations
return the zero `Product`.

The model is split into modules that follow that structure:

- `GoTypes`: Go's 64-bit `int` and `uint`, with the wrap-around of
  `int(uint)` and of `+=` written out.
- `Decimal`: `strconv.Itoa` and `%d`, together with a parser, so that round
  trips can be stated.
- `Products`: the `Product`, `Dimension`, `Meta`, `Review` and
  `ProductResponse` records.
- `Errors`: `DummyError` and its `Error()` text.
- `Http`: requests, responses, the error-precedence check and the request
  paths.
- `Server`: an abstract server that answers the listing. It is either a
  *scripted* server, which hands out a fixed list of responses in order, or
  a well-behaved *catalog*.
- `Client`: the five operations, and what the single-item operations send and return.
- `Pagination`: properties that hold across calls.
- `Listings`: the listing run against particular servers.

`GetProducts` returns the sequence of requests it sent. Its contract,
`ListingTrace`, ties that sequence, the server's replies and the result
together. `Pagination.ListingTraceUnique` shows that this contract leaves
exactly one possible outcome for every server.

One might expect a catalog of N items to take ⌈N / 30⌉ requests, and a
short first page to take one. The code does not behave that way, and the
model follows the code. Because of the discarded opening request:

- a successful listing always sends at least two requests;
- a catalog of N items takes N / 30 + 2 requests (integer division), not
  ⌈N / 30⌉;
- a first page that is already short still costs two requests, not one;
- pages of 30, 30 and 14 items take four requests, not three.

## Model

| member | source | states |
|---|---|---|
| `Client.GetProducts` | dummy/products.go:82-111 | Every outcome satisfies `ListingTrace`: the opening unparameterised request; loop requests at the summed offsets; every reply but the last succeeded; every loop page but the last was full; the last reply's error, if any, is the result's error, with no products; otherwise the products of all loop pages in order. Against a catalog of N items it returns all N in order after N / 30 + 2 requests. |
| `Pagination.ListingTraceUnique` | dummy/products.go:82-111 | For a given server, two traces that both satisfy the listing contract are equal, request for request, and so are their results. |
| `Pagination.TraceRequestsCanonical` | dummy/products.go:95-99 | The requests a listing sends depend only on how many it sends: the opening request, then pages of 30 at offsets 0, 30, 60, and so on. |
| `Pagination.TraceNotPrefix` | dummy/products.go:95-109 | No listing trace is a strict prefix of another for the same server: a shorter trace ends on a failed or non-full page, and the loop stops there. |
| `Pagination.LoopRequestOffsets` | dummy/products.go:95-107 | Loop request k always asks for limit 30 at offset 30·(k−1), reduced to 64 bits. |
| `Pagination.TraceFullPages` | dummy/products.go:95 | A restatement of the trace's full-page clause, indexed by loop page rather than by reply: the loop continued past a page only if that page reported a limit of exactly 30. |
| `Pagination.FullPagesNeverStop` | dummy/products.go:95-107 | The stop rule looks only at the reported limit. A server whose every reply succeeds with a limit of 30, whatever offset is asked for, is never left by the loop: the scripted listing ends only when the script runs out, after one request more than the script holds, with the transport error of that extra request. |
| `Pagination.ScriptedListingStops` | dummy/products.go:95-110 | Suppose a server's first n responses succeed, and its loop pages are full up to a last one that is not. Then the listing sends exactly n requests and returns the products of responses 1 to n−1, in order. |
| `Pagination.SumLimitsWraps` | dummy/products.go:106-107 | The client's offset equals the sum of the reported limits (each read as a Go int), reduced to 64 bits. |
| `Pagination.FullPagesOffset` | dummy/products.go:106 | After n full pages, the offset is 30·n reduced to 64 bits. |
| `Pagination.FlattenAppend` | dummy/products.go:108 | Accumulating the pages in two runs gives the first run's products followed by the second's. |
| `Pagination.FlattenIndex` | dummy/products.go:108 | In the result, each page's products follow exactly those of the earlier pages. |
| `Pagination.OpeningPageDiscarded` | dummy/products.go:84-93 | Replacing the page decoded from the opening request leaves the trace and the result valid. Only that response's status and error matter, as long as every loop response is decoded afresh; see "Left out" for replies resty does not decode. |
| `Http.ErrorOf` | dummy/products.go:87-92 | No error exactly when there is neither an error status nor a library error. An error status gives a DummyError with the body verbatim, whether or not the library also erred. Otherwise the library error is returned unchanged. |
| `Http.Settle` | dummy/products.go:116-122 | An operation's result is the response's error. On success the value is the decoded value; on failure it is the zero value. |
| `Errors.ErrorText` | dummy/products.go:74-76 | The error text is "error from the server: " followed by the message, with nothing else. |
| `Errors.ErrorTextRoundTrip` | dummy/products.go:74-76 | The message can be read back from the error text, and two errors have equal texts exactly when their messages are equal. |
| `Http.ItemPath` | dummy/products.go:115 | An item path is "/products/" followed by a canonical decimal integer, as `%d` writes it: no sign for non-negative ids, no leading zero, no padding. With `Decimal.FormatIntIsCanonicalSpelling` this fixes the spelling of the path for each id. |
| `Http.ItemPathRoundTrip` | dummy/products.go:115 | An item path reads back to its id. Distinct ids give distinct paths, and no id gives the upload path. |
| `Http.PageRequestRoundTrip` | dummy/products.go:96-99 | A page request's query has exactly the keys "limit" and "skip". Both values are canonical decimal texts, as `strconv.Itoa` writes them, and parse back to the integers the client held. |
| `Decimal.FormatInt` | dummy/products.go:97-98 | The decimal text of an integer is canonical: digits only for x ≥ 0, and a '-' then digits not starting with '0' for x < 0. There is no leading zero except in "0" itself, and the text starts with '-' exactly when x is negative. |
| `Decimal.FormatIntIsCanonicalSpelling` | dummy/products.go:97-98 | Any canonical text that parses to x is exactly FormatInt(x), so the spelling on the wire is fixed. |
| `Decimal.CanonicalDigitsUnique` | dummy/products.go:97-98 | Two canonical digit strings with the same value are the same string. |
| `Http.WireSpellings` | dummy/products.go:96-99 | The item path for id 123 is exactly "/products/123". The query of the page request at offset 60 is exactly limit=30 and skip=60. |
| `Decimal.NatDigitsRoundTrip` | dummy/products.go:97-98 | Parsing the digits of a natural number gives that number back. |
| `Decimal.FormatIntRoundTrip` | dummy/products.go:97-98 | Parsing the decimal text of any integer gives that integer back. |
| `Decimal.FormatIntInjective` | dummy/products.go:97-98 | Distinct integers have distinct decimal texts. |
| `GoTypes.UintToInt` | dummy/products.go:106-107 | `int(uint)` keeps values below 2^63 and turns larger ones negative. |
| `GoTypes.AddInt` | dummy/products.go:106 | Go's int addition is exact whenever the sum fits in 64 bits. |
| `GoTypes.GoIntIsTwosComplement` | dummy/products.go:106-107 | Both conversions agree with 64-bit two's-complement reduction. |
| `Client.GetProduct` | dummy/products.go:113-123 | Sends `GET /products/<id>`. Returns the decoded product on success; otherwise the zero product with the error, an error status taking precedence. |
| `Client.UploadProduct` | dummy/products.go:125-135 | Sends `POST /products/add` with the product as body. Returns the decoded echo, or the zero product with the error. |
| `Client.UpdateProduct` | dummy/products.go:137-147 | Sends `PATCH /products/<id>` with the product as body. Returns the decoded echo, or the zero product with the error. |
| `Client.DeleteProduct` | dummy/products.go:149-159 | Sends `DELETE /products/<id>`. Returns the decoded product, or the zero product with the error. |
| `Client.EchoRoundTrip` | dummy/products.go:125-147 | Against a server that echoes the submitted product, upload and update both return exactly the product sent, with no error. This covers products that JSON can encode; see "Left out" for the others. |
| `Client.ItemOperationsAddressTheItem` | dummy/products.go:113-159 | Get, update and delete address the item whose id they are given; upload addresses no item. |
| `Listings.ListAcceptanceCatalog` | terraform-provider-dummy/internal/provider/products_data_source_test.go:21-22 | A catalog of 194 products with ids from 1 is listed completely (194 products, the first with id 1) after 8 requests. |
| `Listings.ListShortPage` | dummy/products.go:86-110 | A first page of fewer than 30 products ends the listing with exactly those products, after the opening request and one page request at offset 0. |
| `Listings.ListThreePages` | dummy/products.go:95-110 | Pages of 30, 30 and 14 products yield all 74 in page order, after four requests. |
| `Listings.ListFailingPage` | dummy/products.go:100-102 | An error status on the second page request drops the page already read and returns a DummyError with the server's message, even though the library also reported an error. |

## Left out

- The HTTP library (resty), the base URL and the network are not modelled. A response is modelled by four values:
  - its error-status verdict (`IsError`);
  - its raw body;
  - the library's error;
  - the value decoded from it.

  The status threshold behind `IsError` is resty's own and is not part of this model.
- JSON encoding and decoding are not modelled. In particular, the listing decodes every page into one reused `ProductResponse` (dummy/products.go:84-85), and the model gives each response a freshly decoded page instead. Two consequences of the reuse are therefore outside the model:
  - a field missing from a later page's JSON keeps its earlier value;
  - encoding/json decodes an array into the existing slice elements in place, and `append(products, prodRes.Products...)` (line 108) copies `Product` values whose `Tags`, `Images` and `Reviews` share backing arrays with the reused page. Decoding a later page can therefore overwrite the tags, images and reviews of products already collected, even when every page carries every field.

  So the Go result can differ from the in-order concatenation of the pages that Client.GetProducts promises. This follows from how encoding/json decodes an array into the slice's existing elements.
- Client.GetProducts: the in-order concatenation it promises is that of freshly decoded pages. Because of the in-place decoding described above, the Go function need not return it.
- The model assumes that every request gets a response. resty returns a nil response when it rejects a request before sending it: a body that JSON cannot encode (a NaN or infinite price or rating, or a `time.Time` outside the years 0 to 9999), or a malformed base URL. The `res.IsError()` call at dummy/products.go:87, 100, 116, 128, 140 and 152 then panics on the nil response, and the operation returns nothing.
- Client.EchoRoundTrip: holds only for products that JSON can encode. For any other product, upload and update panic as described above instead of returning the product.
- Response bodies and DummyError messages are modelled as strings of Unicode characters. Go's `string(res.Body())` keeps arbitrary bytes, invalid UTF-8 included, and Go's `len` of the error text counts bytes where `Errors.ErrorText`'s length counts characters. No operation looks inside a body, so no result of the model differs because of this.
- Pagination.OpeningPageDiscarded: holds for the model's freshly decoded pages only. resty decodes into the reused `ProductResponse` only for a 2xx response with a JSON body; a 204 No Content, a 2xx with another content type, and a 3xx (which `IsError` does not flag) leave it untouched. If the first loop response is such a reply, `prodRes` still holds the opening page, so at dummy/products.go:106-108 the opening page's `Limit` is added to `skip`, decides whether the loop goes on, and its `Products` are appended to the result. A later undecoded reply likewise repeats the previous page.
- `float64` and `time.Time` fields are carried as opaque values (a 64-bit pattern, and seconds plus nanoseconds). No arithmetic is done on them.
- Go's distinction between a nil slice and an empty slice is not modelled: both are the empty sequence.
- A scripted server that runs out of responses answers with a transport error. This is the model's convention for the listing calling a server too often. A consequence is that the model's listing terminates against every server, while the Go loop (dummy/products.go:95-107) never ends against a server that keeps reporting a limit of 30, for instance one that ignores `skip`. Pagination.FullPagesNeverStop shows this: against such a server, the model's listing stops only because the script runs out.
- Client.GetProducts: against a catalog it assumes fewer than 2^63 items. A larger catalog would make the offset wrap, which the scripted server can still exhibit.
- The catalog server is the model's stand-in for the remote API, not code from the repository: it serves `skip`/`limit` pages and reports the count it returned.
- `NewDummyClient`, the Terraform provider, its data sources and resources, schema conversion and logging are not modelled. They are glue around the client.
- Concurrency is not modelled: every call is a sequential exchange.
- Go's `int` is assumed to be 64 bits wide. On 32-bit targets (386, arm), `int(prodRes.Limit)` and `skip +=` would wrap at 2^31; such builds are not modelled.
