/**
 How a recipient finds the body of a message, written from section 6.3 of RFC 9112 without
 reference to the code that produced the message.
 */
module Recipient {
  import opened Wrappers
  import opened Wire

  /** What the recipient has in front of it: the fields that matter and every byte after the head. */
  datatype Message = Message(contentLength: Option<Bytes>, transferEncoding: Option<Bytes>, body: Bytes)

  const CHUNKED: Bytes := [99, 104, 117, 110, 107, 101, 100]

  /** Rules 3 to 6: a transfer coding wins, then a valid length; `otherwise` covers their absence. */
  function ReadFramed(m: Message, otherwise: Decoded): Decoded {
    match (m.transferEncoding, m.contentLength)
    case (Some(coding), _) => if coding == CHUNKED then DecodeChunked(m.body) else Malformed
    case (None, Some(text)) =>
      (match ReadNumber(text, Decimal)
       case None => Malformed
       case Some(n) => if |m.body| < n then Unfinished else Complete(m.body[..n], m.body[n..]))
    case (None, None) => otherwise
  }

  /** Rule 1: such a response ends with its head. */
  predicate ForbidsBody(verb: string, status: nat) {
    verb == "HEAD" || 100 <= status < 200 || status == 204 || status == 304
  }

  /** A response to a request of this method.  Rule 1: no body for `HEAD`, 1xx, 204 and 304.  Rule 2: a
      successful `CONNECT` turns the connection into a tunnel.  Rule 8: otherwise read until it closes. */
  function ReadResponse(verb: string, status: nat, m: Message): Decoded {
    if ForbidsBody(verb, status) then Complete([], m.body)
    else if verb == "CONNECT" && 200 <= status < 300 then Complete([], m.body)
    else ReadFramed(m, Complete(m.body, []))
  }

  /** A request.  Rule 7: without framing its body is empty. */
  function ReadRequest(m: Message): Decoded {
    ReadFramed(m, Complete([], m.body))
  }

  lemma DeclaredBodyReadsBack(body: Bytes, otherwise: Decoded)
    ensures ReadFramed(Message(Some(Print(|body|, Decimal)), None, body), otherwise) == Complete(body, [])
  {
    hide Print, ReadNumber, DecodeChunked;
    PrintedNumberReadsBack(|body|, Decimal);
    assert body[..|body|] == body && body[|body|..] == [];
  }

  lemma ChunkedMessageReadsBack(parts: seq<Bytes>, length: Option<Bytes>, otherwise: Decoded)
    requires NoneEmpty(parts)
    ensures var coding := [99, 104, 117, 110, 107, 101, 100];
            ReadFramed(Message(length, Some(coding), ChunkedBody(parts)), otherwise) == Complete(Flatten(parts), [])
  {
    ChunkedBodyReadsBack(parts, []);
    assert ChunkedBody(parts) + [] == ChunkedBody(parts);
  }
}
