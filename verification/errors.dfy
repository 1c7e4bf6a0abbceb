/** The two kinds of failure the client reports: a DummyError (defined in
    dummy/products.go, lines 70-76) when the server answered with an error
    status, carrying the response body verbatim, and the HTTP library's own
    error, which every operation passes on as is (as at lines 86 and 90-92).
 */
module Errors {
  import opened GoTypes

  datatype DummyError = DummyError(message: string)

  /** Whatever the HTTP library reports when the round trip itself failed
      (connection refused, timeout, undecodable body). */
  datatype TransportError = TransportError(reason: string)

  datatype ClientError =
    | Remote(dummy: DummyError)
    | Transport(cause: TransportError)

  const ServerErrorPrefix: string := "error from the server: "

  /** `DummyError.Error()`: the fixed prefix followed by the message. */
  function ErrorText(e: DummyError): (s: string)
    ensures |s| == |ServerErrorPrefix| + |e.message|
    ensures s[..|ServerErrorPrefix|] == ServerErrorPrefix
    ensures s[|ServerErrorPrefix|..] == e.message
  {
    ServerErrorPrefix + e.message
  }

  /** Reads the message back out of an error text; None when the prefix is missing. */
  function MessageOf(text: string): Option<string>
  {
    if |text| >= |ServerErrorPrefix| && text[..|ServerErrorPrefix|] == ServerErrorPrefix
    then Some(text[|ServerErrorPrefix|..])
    else None
  }

  /** The error text loses nothing: the message is recovered from it, and
      different messages give different texts. */
  lemma ErrorTextRoundTrip(e: DummyError, f: DummyError)
    ensures MessageOf(ErrorText(e)) == Some(e.message)
    ensures ErrorText(e) == ErrorText(f) <==> e == f
  {
    assert MessageOf(ErrorText(e)) == Some(e.message);
    assert MessageOf(ErrorText(f)) == Some(f.message);
  }
}
