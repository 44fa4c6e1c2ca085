/**
 Sending a reply through HTTP.sys: choosing the framing from the method, the status, the
 caller's declaration and the body's size hint, then writing in bounded pieces.

 The platform answers each call with acceptance or refusal; when no answer is left the
 reply is still waiting for one.  The log holds every call handed over, answered or not.
 */
module Server {
  import opened Wrappers
  import opened Wire
  import opened Body
  import opened Reply
  import opened Recipient

  /** The largest piece of a body written in one call. */
  const MAX_SEND: nat := 65536

  datatype Call =
    | SendWhole(head: Head, body: Option<Bytes>)
    | SendHead(head: Head)
    | SendBody(bytes: Bytes, last: bool)
    | SendTrailers(fields: Fields)

  datatype BodyError = Source(code: nat) | LengthMismatch(declared: nat, actual: nat)

  datatype Outcome = Sent | Refused | Waiting | BadBody(e: BodyError) | BadHead(h: HeadError)

  /** What becomes of the next call. */
  function Answer(answers: seq<bool>): Outcome {
    if answers == [] then Waiting else if answers[0] then Sent else Refused
  }

  ghost predicate Accepting(answers: seq<bool>) {
    forall i :: 0 <= i < |answers| ==> answers[i]
  }

  /** An outcome after `calls` calls is the platform's own: nothing is refused, and nothing waits, unless
      the last call was, and every call before it was accepted. */
  ghost predicate Honest(r: Outcome, calls: nat, answers: seq<bool>) {
    if r.Waiting? then calls == |answers| + 1 && Accepting(answers)
    else if r.Refused? then 0 < calls <= |answers| && !answers[calls - 1] && Accepting(answers[..calls - 1])
    else calls <= |answers| && Accepting(answers[..calls])
  }

  lemma HonestAfter(done: nat, r: Outcome, calls: nat, answers: seq<bool>)
    requires done <= |answers| && Accepting(answers[..done]) && Honest(r, calls, answers[done..])
    ensures Honest(r, done + calls, answers)
  {
    var n := if r.Waiting? then calls - 1 else if r.Refused? then calls - 1 else calls;
    assert answers[..done + n] == answers[..done] + answers[done..][..n];
    assert answers[done..][..n] <= answers[done..];
    if r.Waiting? {
      assert answers[done..][..n] == answers[done..] && answers[..done + n] == answers;
    }
  }

  // ---------------------------------------------------------------- writing

  /** The body bytes handed over by a log. */
  function Handed(calls: seq<Call>): Bytes {
    if calls == [] then []
    else
      (match calls[0]
       case SendBody(bytes, _) => bytes
       case SendWhole(_, Some(bytes)) => bytes
       case _ => []) + Handed(calls[1..])
  }

  /** The call tells the platform that the message is over. */
  predicate Closes(call: Call) {
    call.SendWhole? || (call.SendBody? && call.last) || call.SendTrailers?
  }

  predicate Finished(calls: seq<Call>) {
    exists i :: 0 <= i < |calls| && Closes(calls[i])
  }

  lemma {:induction false} HandedAppends(a: seq<Call>, b: seq<Call>)
    ensures Handed(a + b) == Handed(a) + Handed(b)
  {
    if a == [] {
      assert a + b == b;
    } else {
      assert (a + b)[1..] == a[1..] + b;
      HandedAppends(a[1..], b);
    }
  }

  function WriteCalls(buffer: Bytes, last: bool): seq<Call>
    decreases |buffer|
  {
    if |buffer| <= MAX_SEND then [SendBody(buffer, last)]
    else [SendBody(buffer[..MAX_SEND], false)] + WriteCalls(buffer[MAX_SEND..], last)
  }

  /** Split or not, a write hands over its buffer, in pieces of bounded size, and only its final piece
      can close the message. */
  lemma {:induction false} WritesHandOverTheBuffer(buffer: Bytes, last: bool)
    ensures Handed(WriteCalls(buffer, last)) == buffer
    ensures var calls := WriteCalls(buffer, last);
            forall i :: 0 <= i < |calls| ==>
              && calls[i].SendBody? && (calls[i].last <==> last && i == |calls| - 1)
              && |calls[i].bytes| <= 65536 && (i < |calls| - 1 ==> |calls[i].bytes| == 65536)
    decreases |buffer|
  {
    if |buffer| > MAX_SEND {
      WritesHandOverTheBuffer(buffer[MAX_SEND..], last);
      assert WriteCalls(buffer, last)[1..] == WriteCalls(buffer[MAX_SEND..], last);
    } else {
      assert WriteCalls(buffer, last)[1..] == [];
    }
  }

  lemma SplitWrite(buffer: Bytes, last: bool)
    ensures WriteCalls(buffer, last)
            == if |buffer| <= MAX_SEND then [SendBody(buffer, last)]
               else [SendBody(buffer[..MAX_SEND], false)] + WriteCalls(buffer[MAX_SEND..], last)
  {
  }

  /** The call after `n` accepted ones. */
  lemma OneAnswer(n: nat, answers: seq<bool>)
    requires n <= |answers| && Accepting(answers[..n])
    ensures var r := Answer(answers[n..]);
            && (r.Sent? || r.Refused? || r.Waiting?) && Honest(r, n + 1, answers)
            && (r.Sent? ==> n < |answers| && Accepting(answers[..n + 1]))
  {
    if n == |answers| {
      assert answers[..n] == answers;
    } else {
      assert answers[n..][0] == answers[n];
    }
  }

  method Write(buffer: Bytes, last: bool, answers: seq<bool>)
    returns (r: Outcome, calls: seq<Call>, rest: seq<bool>)
    ensures calls <= WriteCalls(buffer, last)
    ensures r.Sent? || r.Refused? || r.Waiting?
    ensures r.Sent? ==> calls == WriteCalls(buffer, last) && |calls| <= |answers| && rest == answers[|calls|..]
    ensures Honest(r, |calls|, answers)
  {
    hide WriteCalls, Accepting, Honest, Answer;
    var left := buffer;
    calls, rest := [], answers;
    Accepted(answers);
    while |left| > MAX_SEND
      invariant WriteCalls(buffer, last) == calls + WriteCalls(left, last)
      invariant |calls| <= |answers| && Accepting(answers[..|calls|]) && rest == answers[|calls|..]
      decreases |left|
    {
      var now, later := left[..MAX_SEND], left[MAX_SEND..];
      SplitWrite(left, last);
      OneAnswer(|calls|, answers);
      calls := calls + [SendBody(now, false)];
      r := Answer(rest);
      if !r.Sent? {
        return;
      }
      rest := rest[1..];
      left := later;
    }
    SplitWrite(left, last);
    OneAnswer(|calls|, answers);
    calls := calls + [SendBody(left, last)];
    r := Answer(rest);
    if r.Sent? {
      rest := rest[1..];
    }
  }

  // ---------------------------------------------------------------- streaming

  function PieceCalls(pieces: seq<Bytes>, framing: Framing): seq<Call> {
    if pieces == [] then []
    else PieceCalls(pieces[..|pieces| - 1], framing) + WriteCalls(Framed(pieces[|pieces| - 1], framing), false)
  }

  /** The whole exchange of a streamed reply. */
  function StreamCalls(head: Head, pieces: seq<Bytes>, framing: Framing): seq<Call> {
    [SendHead(head)] + PieceCalls(pieces, framing) + WriteCalls(Terminator(framing), true)
  }

  lemma NoBytes()
    ensures Flatten([]) == []
  {
  }

  lemma NothingHanded()
    ensures Handed([]) == []
  {
  }

  lemma {:induction false} PiecesHandOver(pieces: seq<Bytes>, framing: Framing)
    ensures Handed(PieceCalls(pieces, framing)) == FramedPieces(pieces, framing)
    ensures !Finished(PieceCalls(pieces, framing))
  {
    hide Handed, WriteCalls, Chunk, Flatten;
    NothingHanded();
    assert Flatten([]) == [] && Chunks([]) == [] by { NoBytes(); }
    if pieces != [] {
      var front, piece := pieces[..|pieces| - 1], pieces[|pieces| - 1];
      PiecesHandOver(front, framing);
      WritesHandOverTheBuffer(Framed(piece, framing), false);
      HandedAppends(PieceCalls(front, framing), WriteCalls(Framed(piece, framing), false));
      assert pieces == front + [piece];
      OnePieceMore(front, piece, framing);
    }
  }

  /** A finished exchange hands over the framed pieces and then the terminator. */
  lemma StreamHandsOver(head: Head, pieces: seq<Bytes>, framing: Framing)
    ensures Handed(StreamCalls(head, pieces, framing)) == FramedPieces(pieces, framing) + Terminator(framing)
  {
    hide PieceCalls, WriteCalls, Terminator, FramedPieces;
    PiecesHandOver(pieces, framing);
    WritesHandOverTheBuffer(Terminator(framing), true);
    HandedAppends([SendHead(head)] + PieceCalls(pieces, framing), WriteCalls(Terminator(framing), true));
    HandedAppends([SendHead(head)], PieceCalls(pieces, framing));
    assert [SendHead(head)][1..] == [];
  }

  lemma {:induction false} PrefixHandsLess(a: seq<Call>, b: seq<Call>)
    requires a <= b
    ensures Handed(a) <= Handed(b)
    ensures Finished(a) ==> Finished(b)
  {
    assert b == a + b[|a|..];
    HandedAppends(a, b[|a|..]);
  }

  /** The first `k` pieces are the first to exceed the declaration. */
  ghost predicate Exceeds(pieces: seq<Bytes>, k: nat, declared: nat) {
    0 < k <= |pieces| && |Flatten(pieces[..k - 1])| <= declared < |Flatten(pieces[..k])|
  }

  /** Where an exchange stops when the body fails it: a failing or short body once all its pieces were handed
      over, a long one just before the piece that would exceed its declaration. */
  ghost predicate StoppedAt(calls: seq<Call>, head: Head, pieces: seq<Bytes>, framing: Framing, e: BodyError) {
    match e
    case Source(_) => calls == [SendHead(head)] + PieceCalls(pieces, framing)
    case LengthMismatch(declared, actual) =>
      && framing == Exact(declared)
      && if actual < declared then
           actual == |Flatten(pieces)| && calls == [SendHead(head)] + PieceCalls(pieces, framing)
         else
           exists k: nat :: && Exceeds(pieces, k, declared) && actual == |Flatten(pieces[..k])|
                            && calls == [SendHead(head)] + PieceCalls(pieces[..k - 1], framing)
  }

  lemma StoppedBefore(head: Head, pieces: seq<Bytes>, framing: Framing, done: seq<Bytes>, piece: Bytes)
    requires framing.Exact? && done + [piece] <= pieces
    requires |Flatten(done)| <= framing.length < |Flatten(done)| + |piece| == |Flatten(done + [piece])|
    ensures StoppedAt([SendHead(head)] + PieceCalls(done, framing), head, pieces, framing,
                      LengthMismatch(framing.length, |Flatten(done)| + |piece|))
  {
    var k := |done| + 1;
    assert pieces[..k] == done + [piece] && pieces[..k - 1] == done;
    assert Exceeds(pieces, k, framing.length);
  }

  lemma StoppedAfter(head: Head, pieces: seq<Bytes>, framing: Framing, code: nat)
    ensures var calls := [SendHead(head)] + PieceCalls(pieces, framing);
            && StoppedAt(calls, head, pieces, framing, Source(code))
            && (framing.Exact? && |Flatten(pieces)| < framing.length ==>
                  StoppedAt(calls, head, pieces, framing, LengthMismatch(framing.length, |Flatten(pieces)|)))
  {
  }

  /** Send the head, then the body in pieces: `prefix` holds the pieces already pulled, and an empty
      prefix means the body is over. */
  method Stream(head: Head, frames: seq<Frame>, prefix: seq<Bytes>, framing: Framing, answers: seq<bool>)
    returns (r: Outcome, calls: seq<Call>)
    requires prefix == [] ==> Pieces(frames) == [] && Failure(frames).None?
    ensures calls <= StreamCalls(head, prefix + Pieces(frames), framing)
    ensures r.Sent? ==> && calls == StreamCalls(head, prefix + Pieces(frames), framing)
                        && Failure(frames).None?
                        && (framing.Exact? ==> |Flatten(prefix + Pieces(frames))| == framing.length)
    ensures framing.Exact? ==> |Handed(calls)| <= framing.length
    ensures framing.Exact? && Finished(calls) ==>
              |Flatten(prefix + Pieces(frames))| == framing.length && Failure(frames).None?
    ensures Honest(r, |calls|, answers) && !r.BadHead?
    ensures r.BadBody? ==> StoppedAt(calls, head, prefix + Pieces(frames), framing, r.e)
    ensures r.BadBody? && r.e.Source? ==> Failure(frames) == Some(r.e.code)
    ensures r.BadBody? && r.e.LengthMismatch? && r.e.actual < r.e.declared ==> Failure(frames).None?
  {
    hide StoppedAt, Handed, Finished, PieceCalls, WriteCalls, StreamCalls, Flatten, Pieces, Failure, Framed, Terminator,
      FramedPieces, Accepting;
    Accepted(answers);
    ghost var all := prefix + Pieces(frames);
    calls := [SendHead(head)];
    NothingHandedYet(head, all, framing);
    r := Answer(answers);
    if !r.Sent? {
      return;
    }
    var rest := answers[1..];
    var left, body := prefix, frames;
    var written := 0;
    ghost var done: seq<Bytes> := [];
    while left != []
      invariant done + left + Pieces(body) == all && Failure(body) == Failure(frames)
      invariant left == [] ==> Pieces(body) == [] && Failure(body).None?
      invariant calls == [SendHead(head)] + PieceCalls(done, framing)
      invariant written == |Flatten(done)|
      invariant framing.Exact? ==> written <= framing.length
      invariant |calls| <= |answers| && Accepting(answers[..|calls|]) && rest == answers[|calls|..]
      decreases |left| + |Pieces(body)|
    {
      var piece := left[0];
      FirstLeft(done, left, Pieces(body), all);
      r, calls, rest := SendPiece(head, framing, piece, written, calls, rest, done, all, answers);
      if !r.Sent? {
        return;
      }
      written, done := written + |piece|, done + [piece];
      left := left[1..];
      StreamedSoFar(head, all, framing, done);
      if left == [] {
        var next;
        next, body := NextChunk(body);
        if next.Err? {
          assert done == all;
          StoppedAfter(head, all, framing, next.error);
          return BadBody(Source(next.error)), calls;
        }
        if next.value.Some? {
          left := [next.value.value];
        }
      }
    }
    assert done == all;
    StoppedAfter(head, all, framing, 0);
    r, calls := Conclude(head, framing, written, calls, rest, all, answers);
  }

  /** One piece, unless it would exceed the declaration. */
  method SendPiece(head: Head, framing: Framing, piece: Bytes, written: nat, sent: seq<Call>, rest: seq<bool>,
                   ghost done: seq<Bytes>, ghost all: seq<Bytes>, ghost answers: seq<bool>)
    returns (r: Outcome, calls: seq<Call>, left: seq<bool>)
    requires sent == [SendHead(head)] + PieceCalls(done, framing) && done + [piece] <= all
    requires written == |Flatten(done)| && (framing.Exact? ==> written <= framing.length)
    requires |sent| <= |answers| && Accepting(answers[..|sent|]) && rest == answers[|sent|..]
    ensures r.Sent? ==> && calls == [SendHead(head)] + PieceCalls(done + [piece], framing)
                        && written + |piece| == |Flatten(done + [piece])|
                        && (framing.Exact? ==> written + |piece| <= framing.length)
                        && |calls| <= |answers| && Accepting(answers[..|calls|]) && left == answers[|calls|..]
    ensures !r.Sent? ==> && calls <= StreamCalls(head, all, framing) && !Finished(calls)
                         && (framing.Exact? ==> |Handed(calls)| <= framing.length)
    ensures Honest(r, |calls|, answers) && !r.BadHead?
    ensures r.BadBody? ==> r.e.LengthMismatch? && r.e.actual > r.e.declared && StoppedAt(calls, head, all, framing, r.e)
  {
    hide StoppedAt, Handed, Finished, PieceCalls, WriteCalls, StreamCalls, Flatten, Framed, FramedPieces, Accepting;
    calls, left := sent, rest;
    StreamedSoFar(head, all, framing, done);
    OneMorePiece(head, all, framing, done, piece);
    if framing.Exact? && written + |piece| > framing.length {
      StoppedBefore(head, all, framing, done, piece);
      return BadBody(LengthMismatch(framing.length, written + |piece|)), calls, left;
    }
    var more;
    r, more, left := Write(Framed(piece, framing), false, rest);
    HonestAfter(|calls|, r, |more|, answers);
    calls := calls + more;
    if !r.Sent? {
      PartOfAWrite(head, all, framing, done + [piece], calls);
    }
  }

  /** The body is over: compare its length with the declaration, then close. */
  method Conclude(head: Head, framing: Framing, written: nat, sent: seq<Call>, rest: seq<bool>, ghost all: seq<Bytes>,
                  ghost answers: seq<bool>)
    returns (r: Outcome, calls: seq<Call>)
    requires sent == [SendHead(head)] + PieceCalls(all, framing) && written == |Flatten(all)|
    requires |sent| <= |answers| && Accepting(answers[..|sent|]) && rest == answers[|sent|..]
    requires framing.Exact? ==> written <= framing.length
    ensures calls <= StreamCalls(head, all, framing) && Honest(r, |calls|, answers) && !r.BadHead?
    ensures r.Sent? ==> calls == StreamCalls(head, all, framing)
    ensures framing.Exact? ==> |Handed(calls)| <= framing.length
    ensures framing.Exact? && (r.Sent? || Finished(calls)) ==> |Flatten(all)| == framing.length
    ensures r.BadBody? ==> && framing.Exact? && r.e == LengthMismatch(framing.length, written)
                           && written < framing.length && calls == sent
  {
    hide Handed, Finished, PieceCalls, WriteCalls, StreamCalls, Flatten, Terminator, FramedPieces, Accepting;
    calls := sent;
    StreamedSoFar(head, all, framing, all);
    if framing.Exact? && framing.length != written {
      return BadBody(LengthMismatch(framing.length, written)), calls;
    }
    var more, after;
    r, more, after := Write(Terminator(framing), true, rest);
    HonestAfter(|calls|, r, |more|, answers);
    calls := calls + more;
    WholeExchange(head, all, framing);
    PrefixHandsLess(calls, StreamCalls(head, all, framing));
  }

  // ---------------------------------------------------------------- bookkeeping for the loop

  lemma Accepted(answers: seq<bool>)
    ensures Accepting([])
    ensures answers == [] ==> Accepting(answers)
    ensures answers != [] && answers[0] ==> Accepting(answers[..1])
    ensures Accepting(answers[..0]) && Honest(Answer(answers), 1, answers)
  {
  }

  lemma {:induction false} PieceCallsGrow(done: seq<Bytes>, more: seq<Bytes>, framing: Framing)
    ensures PieceCalls(done, framing) <= PieceCalls(done + more, framing)
  {
    if more == [] {
      assert done + more == done;
    } else {
      var front := more[..|more| - 1];
      assert (done + more)[..|done + more| - 1] == done + front;
      PieceCallsGrow(done, front, framing);
    }
  }

  lemma FirstLeft(done: seq<Bytes>, left: seq<Bytes>, rest: seq<Bytes>, all: seq<Bytes>)
    requires done + left + rest == all && left != []
    ensures done + [left[0]] <= all && done <= all && done + [left[0]] + left[1..] + rest == all
  {
    assert left == [left[0]] + left[1..];
  }

  lemma WholeExchange(head: Head, all: seq<Bytes>, framing: Framing)
    ensures StreamCalls(head, all, framing)
            == [SendHead(head)] + PieceCalls(all, framing) + WriteCalls(Terminator(framing), true)
    ensures framing.Exact? ==> |Handed(StreamCalls(head, all, framing))| == |Flatten(all)|
  {
    StreamHandsOver(head, all, framing);
  }

  lemma NothingHandedYet(head: Head, all: seq<Bytes>, framing: Framing)
    ensures [SendHead(head)] <= StreamCalls(head, all, framing)
    ensures Handed([SendHead(head)]) == [] && !Finished([SendHead(head)])
    ensures PieceCalls([], framing) == [] && Flatten([]) == []
  {
    assert [SendHead(head)][1..] == [];
  }

  /** After whole pieces the log is a prefix of the exchange and hands over just those pieces. */
  lemma StreamedSoFar(head: Head, all: seq<Bytes>, framing: Framing, done: seq<Bytes>)
    requires done <= all
    ensures var calls := [SendHead(head)] + PieceCalls(done, framing);
            && calls <= StreamCalls(head, all, framing) && !Finished(calls)
            && Handed(calls) == FramedPieces(done, framing)
            && (framing.Exact? ==> |Handed(calls)| == |Flatten(done)|)
  {
    assert all == done + all[|done|..];
    PieceCallsGrow(done, all[|done|..], framing);
    PiecesHandOver(done, framing);
    HandedAppends([SendHead(head)], PieceCalls(done, framing));
    assert [SendHead(head)][1..] == [];
  }

  lemma OneMorePiece(head: Head, all: seq<Bytes>, framing: Framing, done: seq<Bytes>, piece: Bytes)
    requires done + [piece] <= all
    ensures PieceCalls(done + [piece], framing) == PieceCalls(done, framing) + WriteCalls(Framed(piece, framing), false)
    ensures |Flatten(done)| + |piece| == |Flatten(done + [piece])| <= |Flatten(all)|
  {
    assert all == done + [piece] + all[|done| + 1..];
    FlattenAppend(done + [piece], all[|done| + 1..]);
    assert (done + [piece])[..|done|] == done;
    FlattenAppend(done, [piece]);
    FlattenOne(piece);
  }

  lemma PartOfAWrite(head: Head, all: seq<Bytes>, framing: Framing, done: seq<Bytes>, calls: seq<Call>)
    requires done <= all && calls <= [SendHead(head)] + PieceCalls(done, framing)
    ensures calls <= StreamCalls(head, all, framing) && !Finished(calls)
    ensures Handed(calls) <= FramedPieces(done, framing)
    ensures framing.Exact? ==> |Handed(calls)| <= |Flatten(done)|
  {
    StreamedSoFar(head, all, framing, done);
    PrefixHandsLess(calls, [SendHead(head)] + PieceCalls(done, framing));
  }

  // ---------------------------------------------------------------- the whole reply

  predicate HasHead(calls: seq<Call>) {
    calls != [] && (calls[0].SendWhole? || calls[0].SendHead?)
  }

  /** What reaches the peer: for a reply sent whole, HTTP.sys computes the length that was not set. */
  function OnTheWire(calls: seq<Call>): Message
    requires HasHead(calls)
  {
    match calls[0]
    case SendWhole(head, body) =>
      var computed := Print(if body.Some? then |body.value| else 0, Decimal);
      Message(if head.contentLength.Some? then head.contentLength else Some(computed), head.transferEncoding,
              Handed(calls))
    case SendHead(head) => Message(head.contentLength, head.transferEncoding, Handed(calls))
  }

  ghost predicate Declares(headers: Headers, n: nat) {
    Values(headers, CONTENT_LENGTH) != [] && Agree(Values(headers, CONTENT_LENGTH), n)
  }

  /** The body the reply is meant to have. */
  function Intended(verb: string, status: nat, frames: seq<Frame>): Bytes {
    if ForbidsBody(verb, status) then [] else Content(frames)
  }

  /** The peer reads this reply as exactly the intended body, with nothing left over. */
  ghost predicate Understood(verb: string, status: nat, frames: seq<Frame>, calls: seq<Call>) {
    && HasHead(calls)
    && ReadResponse(verb, status, OnTheWire(calls)) == Complete(Intended(verb, status, frames), [])
  }

  /** A successful `CONNECT` has no body, so only a reply known to be empty can be understood. */
  ghost predicate Tunnelled(verb: string, status: nat, headers: Headers, hint: Option<nat>) {
    && verb == "CONNECT" && 200 <= status < 300 && !ForbidsBody(verb, status)
    && hint != Some(0) && !Declares(headers, 0)
  }

  function Or(a: Option<nat>, b: Option<nat>): Option<nat> {
    if a.Some? then a else b
  }

  /** No more than `n` body bytes are handed over, and the message is closed only over a whole body of
      `n` bytes. */
  ghost predicate Within(calls: seq<Call>, frames: seq<Frame>, n: nat) {
    && |Handed(calls)| <= n
    && (Finished(calls) ==> |Content(frames)| == n && Failure(frames).None?)
  }

  lemma OneDeclaration(headers: Headers, declared: Option<nat>, n: nat)
    requires declared.None? <==> Values(headers, CONTENT_LENGTH) == []
    requires declared.Some? ==> Agree(Values(headers, CONTENT_LENGTH), declared.value)
    ensures Declares(headers, n) <==> declared == Some(n)
  {
    var values := Values(headers, CONTENT_LENGTH);
    if Declares(headers, n) && declared.Some? {
      OneLength(values[0], n, declared.value);
    }
  }

  lemma HandedWhole(head: Head, body: Option<Bytes>)
    ensures Handed([SendWhole(head, body)]) == if body.Some? then body.value else []
  {
    assert [SendWhole(head, body)][1..] == [];
  }

  /** Ask for two pieces: only a body that has no second one is known to be over. */
  method Pull(frames: seq<Frame>) returns (prefix: seq<Bytes>, body: seq<Frame>, failed: Option<nat>)
    ensures failed.Some? ==> Failure(frames) == failed && |Pieces(frames)| < 2
    ensures failed.None? ==> Pieces(frames) == prefix + Pieces(body) && Failure(body) == Failure(frames)
    ensures failed.None? ==> |prefix| <= 2 && (|prefix| < 2 ==> Pieces(body) == [] && Failure(body).None?)
  {
    prefix, body, failed := [], frames, None;
    var first, rest := NextChunk(frames);
    if first.Err? {
      return [], rest, Some(first.error);
    }
    if first.value.None? {
      return [], rest, None;
    }
    var second, after := NextChunk(rest);
    if second.Err? {
      return [], after, Some(second.error);
    }
    if second.value.None? {
      return [first.value.value], after, None;
    }
    return [first.value.value, second.value.value], after, None;
  }

  lemma TwoAtMost(prefix: seq<Bytes>)
    requires |prefix| <= 2
    ensures prefix == [] ==> Flatten(prefix) == []
    ensures |prefix| == 1 ==> Flatten(prefix) == prefix[0]
    ensures |prefix| == 2 ==> Flatten(prefix) == prefix[0] + prefix[1]
  {
    if |prefix| == 2 {
      assert prefix[1..] == [prefix[1]];
      FlattenOne(prefix[1]);
    } else if |prefix| == 1 {
      FlattenOne(prefix[0]);
      assert prefix == [prefix[0]];
    }
  }

  function Produced(prefix: seq<Bytes>): nat {
    if prefix == [] then 0 else |prefix[0]| + Produced(prefix[1..])
  }

  lemma {:induction false} ProducedIsLength(prefix: seq<Bytes>)
    ensures Produced(prefix) == |Flatten(prefix)|
  {
    if prefix != [] {
      ProducedIsLength(prefix[1..]);
    }
  }

  function Declaring(reply: Head, n: nat): Head {
    reply.(contentLength := Some(Print(n, Decimal)))
  }

  function Chunking(reply: Head): Head {
    reply.(transferEncoding := Some(CHUNKED))
  }

  /** The complete exchange for a reply that may carry a body, given its length if known. */
  predicate IsExchange(calls: seq<Call>, reply: Head, length: Option<nat>, pieces: seq<Bytes>) {
    match length
    case None => calls == StreamCalls(Chunking(reply), pieces, Chunked)
    case Some(n) =>
      && |Flatten(pieces)| == n
      && if n == 0 then calls == [SendWhole(Declaring(reply, 0), None)]
         else calls == [SendWhole(reply, Some(Flatten(pieces)))]
              || calls == StreamCalls(Declaring(reply, n), pieces, Exact(n))
  }

  /** The same reply but for its framing. */
  predicate SameFields(a: Head, b: Head) {
    a == b.(contentLength := a.contentLength, transferEncoding := a.transferEncoding)
  }

  lemma StreamStarts(head: Head, pieces: seq<Bytes>, framing: Framing, calls: seq<Call>)
    requires calls <= StreamCalls(head, pieces, framing) && calls != []
    ensures calls[0] == SendHead(head)
  {
  }

  // ---------------------------------------------------------------- replies that fail

  /** The calls whose bytes can have reached the peer: the last one of a refused or waiting reply has not. */
  function Arrived(r: Outcome, calls: seq<Call>): seq<Call> {
    if (r.Refused? || r.Waiting?) && calls != [] then calls[..|calls| - 1] else calls
  }

  /** The head and the framing of a streamed reply. */
  function StreamHead(reply: Head, length: Option<nat>): Head {
    if length.Some? then Declaring(reply, length.value) else Chunking(reply)
  }

  function StreamFraming(length: Option<nat>): Framing {
    if length.Some? then Exact(length.value) else Chunked
  }

  /** An error that is true of the body, and where it stopped the reply: a body that must be empty is asked for
      two pieces and nothing is sent. */
  ghost predicate TrueError(calls: seq<Call>, reply: Head, length: Option<nat>, pieces: seq<Bytes>, e: BodyError) {
    && (e.LengthMismatch? ==> length == Some(e.declared) && e.actual != e.declared && |Flatten(pieces)| != e.declared)
    && if length == Some(0) then
         calls == [] && e == LengthMismatch(0, |Flatten(pieces[..Min(2, |pieces|)])|)
       else StoppedAt(calls, StreamHead(reply, length), pieces, StreamFraming(length), e)
  }

  /** A streamed reply that is not complete. */
  ghost predicate IsPart(part: seq<Call>, reply: Head, length: Option<nat>, pieces: seq<Bytes>) {
    && part <= StreamCalls(StreamHead(reply, length), pieces, StreamFraming(length)) && part != []
    && part != StreamCalls(StreamHead(reply, length), pieces, StreamFraming(length))
    && (length.Some? ==> |Handed(part)| <= length.value)
  }

  lemma NoneAllowed(reply: Head, prefix: seq<Bytes>, rest: seq<Bytes>)
    requires |prefix| <= 2 && (|prefix| < 2 ==> rest == []) && Produced(prefix) != 0
    ensures TrueError([], reply, Some(0), prefix + rest, LengthMismatch(0, Produced(prefix)))
  {
    ProducedIsLength(prefix);
    FlattenAppend(prefix, rest);
    assert (prefix + rest)[..Min(2, |prefix + rest|)] == prefix;
  }

  lemma {:induction false} MoreIsLonger(pieces: seq<Bytes>, i: nat, j: nat)
    requires NoneEmpty(pieces) && i <= j <= |pieces|
    ensures |Flatten(pieces[..i])| <= |Flatten(pieces[..j])|
    ensures i < j ==> |Flatten(pieces[..i])| < |Flatten(pieces[..j])|
  {
    assert pieces[..j] == pieces[..i] + pieces[i..j];
    FlattenAppend(pieces[..i], pieces[i..j]);
    if i < j {
      assert pieces[i..j][0] == pieces[i];
    }
  }

  /** A mismatch is one: the whole body has another length. */
  lemma MismatchIsTrue(calls: seq<Call>, head: Head, pieces: seq<Bytes>, framing: Framing, e: BodyError)
    requires NoneEmpty(pieces) && StoppedAt(calls, head, pieces, framing, e) && e.LengthMismatch?
    ensures e.actual != e.declared && |Flatten(pieces)| != e.declared
  {
    hide Flatten, PieceCalls;
    assert pieces[..|pieces|] == pieces;
    if e.actual >= e.declared {
      var k: nat :| Exceeds(pieces, k, e.declared) && e.actual == |Flatten(pieces[..k])|;
      assert Exceeds(pieces, k, e.declared);
      MoreIsLonger(pieces, k, |pieces|);
    }
  }

  /** A closing call is still missing. */
  lemma StoppedIsPart(calls: seq<Call>, head: Head, pieces: seq<Bytes>, framing: Framing, e: BodyError)
    requires StoppedAt(calls, head, pieces, framing, e)
    ensures calls != StreamCalls(head, pieces, framing)
  {
    hide PieceCalls, Flatten;
    var sent := if calls == [SendHead(head)] + PieceCalls(pieces, framing) then pieces
                else var k: nat :| Exceeds(pieces, k, e.declared)
                                   && calls == [SendHead(head)] + PieceCalls(pieces[..k - 1], framing);
                  pieces[..k - 1];
    StreamedSoFar(head, pieces, framing, sent);
    WritesHandOverTheBuffer(Terminator(framing), true);
    var whole := StreamCalls(head, pieces, framing);
    assert Closes(whole[|whole| - 1]);
  }

  /** Some whole number of pieces makes up the declared length. */
  ghost predicate Reaches(pieces: seq<Bytes>, n: nat) {
    exists k :: 0 <= k <= |pieces| && |Flatten(pieces[..k])| == n
  }

  /** What a body that fails a declared reply had handed over: all that was declared exactly when its pieces come
      to that at some point. */
  lemma HandedAllIffReached(calls: seq<Call>, reply: Head, n: nat, pieces: seq<Bytes>, e: BodyError)
    requires NoneEmpty(pieces) && TrueError(calls, reply, Some(n), pieces, e) && n != 0 && |Handed(calls)| <= n
    ensures |Handed(calls)| == n <==> Reaches(pieces, n)
  {
    hide Flatten, PieceCalls, Handed;
    var head, framing := StreamHead(reply, Some(n)), Exact(n);
    assert pieces[..|pieces|] == pieces;
    var m := |pieces|;
    if e.LengthMismatch? && e.actual >= n {
      var k: nat :| && Exceeds(pieces, k, n) && e.actual == |Flatten(pieces[..k])|
                    && calls == [SendHead(head)] + PieceCalls(pieces[..k - 1], framing);
      assert Exceeds(pieces, k, n);
      m := k - 1;
    }
    StreamedSoFar(head, pieces, framing, pieces[..m]);
    assert |Handed(calls)| == |Flatten(pieces[..m])|;
    forall k | 0 <= k <= |pieces|
      ensures k < m ==> |Flatten(pieces[..k])| < n
      ensures k > m ==> |Flatten(pieces[..k])| > n || e.Source? || e.actual < n
    {
      if k < m {
        MoreIsLonger(pieces, k, m);
      } else if m < k {
        MoreIsLonger(pieces, m + 1, k);
      }
    }
  }

  /** What the peer makes of a part of a streamed reply: a chunked one is unfinished wherever it was cut, a declared
      one until all that was declared has arrived. */
  lemma PartIsRead(part: seq<Call>, reply: Head, length: Option<nat>, pieces: seq<Bytes>, otherwise: Decoded)
    requires IsPart(part, reply, length, pieces) && NoneEmpty(pieces)
    requires reply.contentLength.None? && reply.transferEncoding.None?
    ensures HasHead(part)
    ensures ReadFramed(OnTheWire(part), otherwise)
            == if length.Some? && |Handed(part)| == length.value then Complete(Handed(part), []) else Unfinished
  {
    hide Handed, StreamCalls, Print, DecodeChunked, ReadNumber, Flatten;
    StreamStarts(StreamHead(reply, length), pieces, StreamFraming(length), part);
    var m := OnTheWire(part);
    if length.Some? {
      PrintedNumberReadsBack(length.value, Decimal);
      assert m.body[..|m.body|] == m.body && m.body[|m.body|..] == [];
    } else {
      CutBeforeTheEnd(part, StreamHead(reply, length), pieces);
      ChunkedBodyIsPrefixFree(pieces, |m.body|);
    }
  }

  /** A chunked exchange short of its last call hands over a proper prefix of the body. */
  lemma CutBeforeTheEnd(part: seq<Call>, head: Head, pieces: seq<Bytes>)
    requires part <= StreamCalls(head, pieces, Chunked) && part != StreamCalls(head, pieces, Chunked)
    ensures |Handed(part)| < |ChunkedBody(pieces)| && Handed(part) == ChunkedBody(pieces)[..|Handed(part)|]
  {
    hide Handed, PieceCalls;
    var most := [SendHead(head)] + PieceCalls(pieces, Chunked);
    assert StreamCalls(head, pieces, Chunked) == most + [SendBody(LAST_CHUNK, true)];
    assert part <= most;
    PrefixHandsLess(part, most);
    StreamedSoFar(head, pieces, Chunked, pieces);
  }

  /** What a failed stream says, as `SendBodied` states it. */
  lemma StreamFails(r: Outcome, calls: seq<Call>, reply: Head, length: Option<nat>, pieces: seq<Bytes>)
    requires length != Some(0) && NoneEmpty(pieces)
    requires calls <= StreamCalls(StreamHead(reply, length), pieces, StreamFraming(length))
    requires length.Some? ==> |Handed(calls)| <= length.value
    requires r.BadBody? ==> StoppedAt(calls, StreamHead(reply, length), pieces, StreamFraming(length), r.e)
    ensures r.BadBody? ==> TrueError(calls, reply, length, pieces, r.e)
    ensures !r.Sent? && !r.BadHead? && HasHead(Arrived(r, calls)) ==> IsPart(Arrived(r, calls), reply, length, pieces)
  {
    hide StreamCalls, Flatten, Handed, Print, Exceeds;
    var head, framing := StreamHead(reply, length), StreamFraming(length);
    if r.BadBody? {
      StoppedIsPart(calls, head, pieces, framing, r.e);
      if r.e.LengthMismatch? {
        MismatchIsTrue(calls, head, pieces, framing, r.e);
      }
    }
    PrefixHandsLess(Arrived(r, calls), calls);
  }

  method SendBodied(reply: Head, length: Option<nat>, frames: seq<Frame>, prefix: seq<Bytes>, body: seq<Frame>,
                    answers: seq<bool>)
    returns (r: Outcome, calls: seq<Call>)
    requires Pieces(frames) == prefix + Pieces(body) && Failure(body) == Failure(frames)
    requires |prefix| <= 2 && (|prefix| < 2 ==> Pieces(body) == [] && Failure(body).None?)
    ensures r.Sent? ==> Failure(frames).None? && IsExchange(calls, reply, length, Pieces(frames))
    ensures length.Some? ==> Within(calls, frames, length.value)
    ensures calls != [] ==> HasHead(calls) && SameFields(calls[0].head, reply)
    ensures Honest(r, |calls|, answers) && !r.BadHead?
    ensures r.BadBody? ==> TrueError(calls, reply, length, Pieces(frames), r.e)
    ensures r.BadBody? && r.e.Source? ==> Failure(frames) == Some(r.e.code)
    ensures !r.Sent? && HasHead(Arrived(r, calls)) ==> IsPart(Arrived(r, calls), reply, length, Pieces(frames))
  {
    hide Handed, PieceCalls, WriteCalls, StreamCalls, Flatten, Pieces, Failure, Chunks, Print, StoppedAt, TrueError,
      IsPart;
    TwoAtMost(prefix);
    ProducedIsLength(prefix);
    NothingHanded();
    ghost var whole := Flatten(Pieces(frames));
    assert |prefix| < 2 ==> Pieces(frames) == prefix;
    if length == Some(0) {
      if Produced(prefix) != 0 {
        NoneAllowed(reply, prefix, Pieces(body));
        return BadBody(LengthMismatch(0, Produced(prefix))), [];
      }
      NoBytesNoPieces(frames, prefix);
      HandedWhole(Declaring(reply, 0), None);
      return Answer(answers), [SendWhole(Declaring(reply, 0), None)];
    }
    if length.Some? {
      if |prefix| < 2 && Produced(prefix) == length.value {
        HandedWhole(reply, Some(prefix[0]));
        return Answer(answers), [SendWhole(reply, Some(prefix[0]))];
      }
      r, calls := Stream(Declaring(reply, length.value), body, prefix, Exact(length.value), answers);
      if calls != [] {
        StreamStarts(Declaring(reply, length.value), prefix + Pieces(body), Exact(length.value), calls);
      }
      StreamFails(r, calls, reply, length, Pieces(frames));
      return;
    }
    r, calls := Stream(Chunking(reply), body, prefix, Chunked, answers);
    if calls != [] {
      StreamStarts(Chunking(reply), prefix + Pieces(body), Chunked, calls);
    }
    StreamFails(r, calls, reply, length, Pieces(frames));
  }

  lemma NoBytesNoPieces(frames: seq<Frame>, prefix: seq<Bytes>)
    requires prefix <= Pieces(frames) && Produced(prefix) == 0
    ensures prefix == []
  {
    hide Pieces;
  }

  /** Whichever branch was taken, framed decoding gives back the pieces. */
  lemma ExchangeReadsBack(calls: seq<Call>, reply: Head, length: Option<nat>, pieces: seq<Bytes>, otherwise: Decoded)
    requires IsExchange(calls, reply, length, pieces) && NoneEmpty(pieces)
    requires reply.contentLength.None? && reply.transferEncoding.None?
    ensures HasHead(calls)
    ensures ReadFramed(OnTheWire(calls), otherwise) == Complete(Flatten(pieces), [])
    ensures length != Some(0) ==> OnTheWire(calls).body != []
    ensures length == Some(0) ==> OnTheWire(calls).body == [] == Flatten(pieces)
  {
    hide Handed, PieceCalls, WriteCalls, Flatten, Chunks, Print, ReadFramed;
    DeclaredBodyReadsBack(Flatten(pieces), otherwise);
    if length.None? {
      StreamHandsOver(Chunking(reply), pieces, Chunked);
      ChunkedMessageReadsBack(pieces, None, otherwise);
    } else if length.value == 0 {
      HandedWhole(Declaring(reply, 0), None);
    } else {
      HandedWhole(reply, Some(Flatten(pieces)));
      StreamHandsOver(Declaring(reply, length.value), pieces, Exact(length.value));
      assert Flatten(pieces) + [] == Flatten(pieces);
    }
  }

  /** A reply sent by the rules of the framing table is read as its body, unless a tunnel opened first. */
  lemma ReadUnlessTunnelled(verb: string, status: nat, frames: seq<Frame>, calls: seq<Call>, reply: Head,
                            length: Option<nat>)
    requires MaySendBody(verb, status) && IsExchange(calls, reply, length, Pieces(frames))
    requires reply.contentLength.None? && reply.transferEncoding.None?
    ensures Understood(verb, status, frames, calls)
            <==> !(verb == "CONNECT" && 200 <= status < 300 && length != Some(0))
  {
    hide IsExchange, OnTheWire, ReadFramed, Flatten, Pieces;
    var otherwise := Complete(if HasHead(calls) then OnTheWire(calls).body else [], []);
    ExchangeReadsBack(calls, reply, length, Pieces(frames), otherwise);
  }

  /** The caller's declarations do not name one length. */
  ghost predicate Contradictory(headers: Headers) {
    Values(headers, CONTENT_LENGTH) != [] && forall n: nat :: !Declares(headers, n)
  }

  /** The reply opens a tunnel. */
  predicate Opens(verb: string, status: nat) {
    verb == "CONNECT" && 200 <= status < 300
  }

  /** What the peer makes of a reply that failed: it is unfinished, unless all the bytes of a declared length have
      arrived, and of a body that spoilt its own reply they have exactly when its pieces come to that length at
      some point. */
  ghost predicate ReadWhenFailed(verb: string, status: nat, headers: Headers, hint: Option<nat>, frames: seq<Frame>,
                                 r: Outcome, calls: seq<Call>)
  {
    && (!r.Sent? && !Opens(verb, status) && HasHead(Arrived(r, calls)) ==>
          (ReadResponse(verb, status, OnTheWire(Arrived(r, calls))).Unfinished? <==>
             !HasLength(headers, hint, |Handed(Arrived(r, calls))|)))
    && (r.BadBody? && calls != [] ==>
          forall n: nat :: HasLength(headers, hint, n) ==> (|Handed(calls)| == n <==> Reaches(Pieces(frames), n)))
  }

  lemma FailureIsRead(verb: string, status: nat, headers: Headers, hint: Option<nat>, frames: seq<Frame>, r: Outcome,
                      calls: seq<Call>, reply: Head, length: Option<nat>)
    requires MaySendBody(verb, status) && reply.contentLength.None? && reply.transferEncoding.None?
    requires !r.Sent? && HasHead(Arrived(r, calls)) ==> IsPart(Arrived(r, calls), reply, length, Pieces(frames))
    requires r.BadBody? ==> TrueError(calls, reply, length, Pieces(frames), r.e)
    requires length.Some? ==> Within(calls, frames, length.value)
    requires Agreed(headers, hint, length)
    ensures ReadWhenFailed(verb, status, headers, hint, frames, r, calls)
  {
    hide IsPart, OnTheWire, ReadFramed, Handed, Finished, Content, Failure, StoppedAt, Pieces, Reaches, HasLength;
    if !r.Sent? && HasHead(Arrived(r, calls)) {
      var part := Arrived(r, calls);
      PartIsRead(part, reply, length, Pieces(frames), Complete(OnTheWire(part).body, []));
    }
    if r.BadBody? && calls != [] && length.Some? {
      HandedAllIffReached(calls, reply, length.value, Pieces(frames), r.e);
    }
  }

  /** The instance: two bytes declared, delivered one by one and then a failure, are a complete reply to the peer. */
  lemma LateFailureIsMisread()
    ensures var reply, frames := Head(200, [], None, None, None, None), [Frame.Data([1]), Frame.Data([2]), Fault(5)];
            var calls := [SendHead(Declaring(reply, 2))] + PieceCalls([[1], [2]], Exact(2));
            && Pieces(frames) == [[1], [2]] && TrueError(calls, reply, Some(2), Pieces(frames), Source(5))
            && HasHead(calls) && ReadResponse("GET", 200, OnTheWire(calls)) == Complete([1, 2], [])
  {
    hide Print, PieceCalls, Handed, StreamCalls, ReadFramed;
    var reply, frames := Head(200, [], None, None, None, None), [Frame.Data([1]), Frame.Data([2]), Fault(5)];
    var pieces: seq<Bytes> := [[1], [2]];
    assert frames[1..][1..] == [Fault(5)] && Pieces(frames) == pieces;
    TwoAtMost(pieces);
    var head := Declaring(reply, 2);
    var calls := [SendHead(head)] + PieceCalls(pieces, Exact(2));
    StreamedSoFar(head, pieces, Exact(2), pieces);
    StoppedIsPart(calls, head, pieces, Exact(2), Source(5));
    PartIsRead(calls, reply, Some(2), pieces, Complete(OnTheWire(calls).body, []));
  }

  /** A length the reply is to have, by the caller's word or the body's. */
  ghost predicate HasLength(headers: Headers, hint: Option<nat>, n: nat) {
    Declares(headers, n) || hint == Some(n)
  }

  /** The length agreed on, if there is one. */
  ghost predicate Agreed(headers: Headers, hint: Option<nat>, length: Option<nat>) {
    forall n: nat :: HasLength(headers, hint, n) <==> length == Some(n)
  }

  /** The error is true of the body, and the reply stopped where it was found: before anything was sent if the two
      lengths disagree or the body fails within its first two pieces. */
  ghost predicate BadlyFramed(calls: seq<Call>, status: nat, headers: Headers, hint: Option<nat>, frames: seq<Frame>,
                              e: BodyError)
  {
    && (e.Source? ==> Failure(frames) == Some(e.code))
    && if hint.Some? && Values(headers, CONTENT_LENGTH) != [] && !Declares(headers, hint.value) then
         calls == [] && e.LengthMismatch? && Declares(headers, e.declared) && hint == Some(e.actual)
       else if e.Source? && |Pieces(frames)| < 2 then calls == []
       else
         exists length :: Agreed(headers, hint, length)
                          && TrueError(calls, Carried(status, headers), length, Pieces(frames), e)
  }

  lemma BodilessIsUnderstood(verb: string, status: nat, frames: seq<Frame>, reply: Head)
    requires !MaySendBody(verb, status)
    ensures var calls := [SendWhole(reply, None)]; Understood(verb, status, frames, calls) && Handed(calls) == []
  {
    HandedWhole(reply, None);
  }

  /** The claim that fails: a chunked reply to a successful `CONNECT` is taken for tunnelled bytes. */
  lemma TunnelledReplyIsMisread()
    ensures var reply, frames := Head(200, [], None, None, None, None), [Frame.Data([7])];
            var calls := StreamCalls(Chunking(reply), [[7]], Chunked);
            IsExchange(calls, reply, None, Pieces(frames)) && !Understood("CONNECT", 200, frames, calls)
  {
    var reply, frames := Head(200, [], None, None, None, None), [Frame.Data([7])];
    assert frames[1..] == [];
    ReadUnlessTunnelled("CONNECT", 200, frames, StreamCalls(Chunking(reply), [[7]], Chunked), reply, None);
  }

  function Carried(status: nat, headers: Headers): Head {
    Head(status, Listed(headers), LastValue(headers, DATE), LastValue(headers, SERVER), None, None)
  }

  /** What a reply without a body declares: the caller's length or else the hint, and for a status that may
      not be framed nothing. */
  ghost predicate DeclaresFor(headers: Headers, hint: Option<nat>, status: nat, text: Option<Bytes>) {
    if 100 <= status < 200 || status == 204 || status == 304 then text.None?
    else
      && (forall n: nat :: Declares(headers, n) ==> text == Some(Print(n, Decimal)))
      && (Values(headers, CONTENT_LENGTH) == [] ==>
            text == if hint.Some? then Some(Print(hint.value, Decimal)) else None)
  }

  /** Sending a reply. */
  method SendParts(verb: string, status: nat, headers: Headers, frames: seq<Frame>, hint: Option<nat>,
                   answers: seq<bool>)
    returns (r: Outcome, calls: seq<Call>)
    // Every framing branch puts on the wire what the peer reads back, except into a tunnel.
    ensures r.Sent? ==> (Understood(verb, status, frames, calls) <==> !Tunnelled(verb, status, headers, hint))
    ensures r.Sent? && !ForbidsBody(verb, status) ==> Failure(frames).None?
    // Finished or failed, no more bytes than declared, and only a body of exactly that size is closed.
    ensures !ForbidsBody(verb, status) ==> forall n: nat :: Declares(headers, n) || hint == Some(n) ==>
              Within(calls, frames, n)
    ensures ForbidsBody(verb, status) && calls != [] ==>
              && |calls| == 1 && calls[0].SendWhole? && calls[0].body.None?
              && DeclaresFor(headers, hint, status, calls[0].head.contentLength)
    // The caller's other headers arrive.
    ensures calls != [] ==> HasHead(calls) && SameFields(calls[0].head, Carried(status, headers))
    ensures !ForbidsBody(verb, status) ==> ReadWhenFailed(verb, status, headers, hint, frames, r, calls)
    // Nothing but the platform, the body and the caller's own headers can make it fail.
    ensures Honest(r, |calls|, answers)
    ensures r.BadHead? <==> Values(headers, TRANSFER_ENCODING) != [] || Contradictory(headers)
    ensures r.BadBody? ==> !ForbidsBody(verb, status) && BadlyFramed(calls, status, headers, hint, frames, r.e)
  {
    hide Handed, Finished, StreamCalls, Pieces, Failure, Print, Agree, Content, Understood, IsExchange,
      Accepting, Tunnelled, DeclaresFor, Within, BadlyFramed, ReadWhenFailed;
    Accepted(answers);
    NothingIsWithin(frames);
    NothingArrived(verb, status, headers, hint, frames);
    calls := [];
    var made := FromHttp(status, headers);
    if made.Err? {
      return BadHead(made.error), [];
    }
    var reply := made.value;
    var found := DeclaredLength(headers);
    if found.Err? {
      return BadHead(found.error), [];
    }
    var declared := found.value;
    forall n: nat ensures Declares(headers, n) <==> declared == Some(n) {
      OneDeclaration(headers, declared, n);
    }
    if !MaySendBody(verb, status) {
      if MayDeclareLength(status) && Or(declared, hint).Some? {
        reply := Declaring(reply, Or(declared, hint).value);
      }
      BodilessIsUnderstood(verb, status, frames, reply);
      BodilessDeclares(verb, status, headers, hint, declared, reply.contentLength);
      return Answer(answers), [SendWhole(reply, None)];
    }
    r, calls := SendWithBody(verb, status, headers, hint, declared, reply, frames, answers);
  }

  /** A reply that may have a body, once its headers are settled. */
  method SendWithBody(verb: string, status: nat, ghost headers: Headers, hint: Option<nat>, declared: Option<nat>,
                      reply: Head, frames: seq<Frame>, answers: seq<bool>)
    returns (r: Outcome, calls: seq<Call>)
    requires MaySendBody(verb, status) && IsDeclared(headers, declared) && reply == Carried(status, headers)
    ensures r.Sent? ==> (Understood(verb, status, frames, calls) <==> !Tunnelled(verb, status, headers, hint))
    ensures r.Sent? ==> Failure(frames).None?
    ensures forall n: nat :: HasLength(headers, hint, n) ==> Within(calls, frames, n)
    ensures calls != [] ==> HasHead(calls) && SameFields(calls[0].head, reply)
    ensures ReadWhenFailed(verb, status, headers, hint, frames, r, calls)
    ensures Honest(r, |calls|, answers) && !r.BadHead?
    ensures r.BadBody? ==> BadlyFramed(calls, status, headers, hint, frames, r.e)
  {
    hide Handed, Finished, StreamCalls, Pieces, Failure, Print, Declares, Values, Listed, LastValue, Content,
      Understood, IsExchange, Accepting, Tunnelled, Within, TrueError, IsPart, ReadWhenFailed;
    Accepted(answers);
    NothingIsWithin(frames);
    NothingArrived(verb, status, headers, hint, frames);
    if declared.Some? && hint.Some? && declared != hint {
      return BadBody(LengthMismatch(declared.value, hint.value)), [];
    }
    var length := Or(hint, declared);
    var prefix, body, failed := Pull(frames);
    if failed.Some? {
      return BadBody(Source(failed.value)), [];
    }
    r, calls := SendBodied(reply, length, frames, prefix, body, answers);
    assert Agreed(headers, hint, length);
    FailureIsRead(verb, status, headers, hint, frames, r, calls, reply, length);
    if r.Sent? {
      ReadUnlessTunnelled(verb, status, frames, calls, reply, length);
      TunnelByLength(verb, status, headers, hint, declared);
    }
  }

  lemma NothingArrived(verb: string, status: nat, headers: Headers, hint: Option<nat>, frames: seq<Frame>)
    ensures forall r: Outcome :: ReadWhenFailed(verb, status, headers, hint, frames, r, [])
  {
  }

  /** The declared length, as far as the headers have one. */
  ghost predicate IsDeclared(headers: Headers, declared: Option<nat>) {
    && (declared.None? <==> Values(headers, CONTENT_LENGTH) == [])
    && forall n: nat :: Declares(headers, n) <==> declared == Some(n)
  }

  lemma BodilessDeclares(verb: string, status: nat, headers: Headers, hint: Option<nat>, declared: Option<nat>,
                         text: Option<Bytes>)
    requires IsDeclared(headers, declared) && !MaySendBody(verb, status)
    requires var n := Or(declared, hint);
             text == if MayDeclareLength(status) && n.Some? then Some(Print(n.value, Decimal)) else None
    ensures DeclaresFor(headers, hint, status, text) && !Tunnelled(verb, status, headers, hint)
  {
    hide Print, Declares;
  }

  lemma TunnelByLength(verb: string, status: nat, headers: Headers, hint: Option<nat>, declared: Option<nat>)
    requires IsDeclared(headers, declared) && MaySendBody(verb, status)
    requires declared.Some? && hint.Some? ==> declared == hint
    ensures Tunnelled(verb, status, headers, hint)
            <==> verb == "CONNECT" && 200 <= status < 300 && Or(hint, declared) != Some(0)
  {
    hide Declares;
  }

  lemma NothingIsWithin(frames: seq<Frame>)
    ensures forall n :: Within([], frames, n)
  {
  }
}
