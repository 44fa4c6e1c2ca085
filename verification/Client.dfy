/**
 Sending a request through WinHTTP: the framing follows the body's size hint, and the body
 is written in slices that the platform may take in any number of steps.
 */
module Client {
  import opened Wrappers
  import opened Wire
  import opened Body
  import opened Recipient
  import opened Transmit

  const MAX_WRITE: nat := 65536
  const U32_MAX: nat := 0xFFFF_FFFF

  datatype Outcome =
    | Written
    | BadSource(code: nat)
    | LengthMismatch(declared: nat, actual: nat)
    | Io(status: Status)
    | BodyTooLarge(length: nat)

  // ---------------------------------------------------------------- slicing

  function Slices(data: Bytes): seq<Bytes> {
    if data == [] then []
    else if |data| <= MAX_WRITE then [data]
    else [data[..MAX_WRITE]] + Slices(data[MAX_WRITE..])
  }

  function Cut(pieces: seq<Bytes>): seq<Bytes> {
    if pieces == [] then [] else Slices(pieces[0]) + Cut(pieces[1..])
  }

  lemma {:induction false} SlicesKeepTheData(data: Bytes)
    ensures NoneEmpty(Slices(data)) && Flatten(Slices(data)) == data
    ensures var slices := Slices(data);
            forall i :: 0 <= i < |slices| ==> |slices[i]| <= 65536 && (i < |slices| - 1 ==> |slices[i]| == 65536)
  {
    if |data| > MAX_WRITE {
      SlicesKeepTheData(data[MAX_WRITE..]);
      assert data == data[..MAX_WRITE] + data[MAX_WRITE..];
    } else if data != [] {
      FlattenOne(data);
    }
  }

  lemma {:induction false} CuttingKeepsTheBytes(pieces: seq<Bytes>)
    ensures NoneEmpty(Cut(pieces)) && Flatten(Cut(pieces)) == Flatten(pieces)
  {
    if pieces != [] {
      SlicesKeepTheData(pieces[0]);
      CuttingKeepsTheBytes(pieces[1..]);
      FlattenAppend(Slices(pieces[0]), Cut(pieces[1..]));
    }
  }

  /** All that a request with this body puts on the wire after its head. */
  function Encoded(frames: seq<Frame>, framing: Framing): Bytes {
    FramedPieces(Cut(Pieces(frames)), framing) + Terminator(framing)
  }

  // ---------------------------------------------------------------- joining logs

  lemma {:induction false} FramedTogether(a: seq<Bytes>, b: seq<Bytes>, framing: Framing)
    ensures FramedPieces(a + b, framing) == FramedPieces(a, framing) + FramedPieces(b, framing)
  {
    FlattenAppend(a, b);
    assert Chunks(a + b) == Chunks(a) + Chunks(b);
    FlattenAppend(Chunks(a), Chunks(b));
  }

  /** Where a run of slices sits on the wire. */
  lemma SlicesAreAt(done: seq<Bytes>, more: seq<Bytes>, all: seq<Bytes>, framing: Framing, tail: Bytes)
    requires done + more <= all
    ensures var wire, base, part :=
              FramedPieces(all, framing) + tail, FramedPieces(done, framing), FramedPieces(more, framing);
            && base + part <= wire && IsAt(part, wire, |base|) && FramedPieces(done + more, framing) == base + part
  {
    hide FramedPieces;
    var rest := all[|done + more|..];
    assert all == done + more + rest;
    FramedTogether(done, more, framing);
    FramedTogether(done + more, rest, framing);
  }

  lemma LogsJoin(log: seq<Offer>, more: seq<Offer>, part: Bytes, wire: Bytes)
    requires InOrder(log, wire, 0) && IsAt(part, wire, |Taken(log)|) && InOrder(more, part, 0)
    ensures InOrder(log + more, wire, 0) && Taken(log + more) == Taken(log) + Taken(more) <= wire
  {
    hide InOrder, Taken;
    InOrderWithin(more, part, 0, wire, |Taken(log)|);
    InOrderAppends(log, more, wire, 0);
    TakenAppends(log, more);
    TakenIsNext(log + more, wire, 0);
  }

  lemma AnswersJoin(log: seq<Offer>, more: seq<Offer>, answers: seq<Answer>)
    requires Follows(log, answers) && |log| <= |answers| && Follows(more, answers[|log|..])
    ensures Follows(log + more, answers)
  {
  }

  lemma TruthJoins(log: seq<Offer>, more: seq<Offer>, s: Status)
    requires Truthful(s, more)
    ensures Truthful(s, log + more)
  {
  }

  // ---------------------------------------------------------------- the body

  lemma OneFramed(piece: Bytes, framing: Framing)
    ensures FramedPieces([piece], framing) == Framed(piece, framing)
    ensures FramedPieces([], framing) == []
  {
    FlattenOne(piece);
    assert Chunks([piece]) == [Chunk(piece)];
    FlattenOne(Chunk(piece));
    assert Chunks([]) == [];
  }

  /** One more part written: the log goes on where it was, and is complete only if the part is. */
  lemma PartWritten(log: seq<Offer>, more: seq<Offer>, done: seq<Bytes>, next: seq<Bytes>, all: seq<Bytes>,
                    framing: Framing, tail: Bytes, answers: seq<Answer>, s: Status)
    requires done + next <= all
    requires var wire := FramedPieces(all, framing) + tail; InOrder(log, wire, 0)
    requires Taken(log) == FramedPieces(done, framing)
    requires Follows(log, answers) && |log| <= |answers| && Follows(more, answers[|log|..]) && Truthful(s, more)
    requires InOrder(more, FramedPieces(next, framing), 0) && Taken(more) <= FramedPieces(next, framing)
    requires s.Done? <==> Taken(more) == FramedPieces(next, framing)
    ensures var wire := FramedPieces(all, framing) + tail;
            && InOrder(log + more, wire, 0) && Taken(log + more) <= wire
            && (s.Done? ==> Taken(log + more) == FramedPieces(done + next, framing))
            && (!s.Done? ==> |Taken(log + more)| < |wire|)
    ensures Follows(log + more, answers) && Truthful(s, log + more)
  {
    hide FramedPieces, InOrder, Taken, Follows, Truthful, IsAt;
    SlicesAreAt(done, next, all, framing, tail);
    LogsJoin(log, more, FramedPieces(next, framing), FramedPieces(all, framing) + tail);
    TruthJoins(log, more, s);
    AnswersJoin(log, more, answers);
  }

  lemma NothingYet(framing: Framing, wire: Bytes, answers: seq<Answer>)
    ensures InOrder([], wire, 0) && Taken([]) == [] == FramedPieces([], framing) && Follows([], answers)
    ensures Flatten([]) == [] && Cut([]) == [] && Slices([]) == []
  {
    assert Chunks([]) == [];
  }

  lemma FirstSlice(data: Bytes)
    requires data != []
    ensures var take := if |data| < MAX_WRITE then |data| else MAX_WRITE;
            Slices(data) == [data[..take]] + Slices(data[take..])
  {
    if |data| <= MAX_WRITE {
      assert data[..|data|] == data;
    }
  }

  /** One data frame, slice by slice. */
  method WriteFrame(data: Bytes, framing: Framing, answers: seq<Answer>)
    returns (r: Status, log: seq<Offer>, rest: seq<Answer>, written: nat)
    ensures var wire := FramedPieces(Slices(data), framing);
            && InOrder(log, wire, 0) && Taken(log) <= wire && (r.Done? <==> Taken(log) == wire)
    ensures Follows(log, answers) && Truthful(r, log)
    ensures r.Done? ==> |log| <= |answers| && rest == answers[|log|..] && written == |data|
  {
    hide InOrder, Taken, Flatten, FramedPieces, Framed, Slices, Follows;
    ghost var all := Slices(data);
    ghost var wire := FramedPieces(all, framing);
    assert wire + [] == wire;
    NothingYet(framing, wire, answers);
    var left := data;
    ghost var done: seq<Bytes> := [];
    log, rest, written, r := [], answers, 0, Done;
    while left != []
      invariant done + Slices(left) == all && written + |left| == |data|
      invariant InOrder(log, wire, 0) && Taken(log) == FramedPieces(done, framing)
      invariant Follows(log, answers) && |log| <= |answers| && rest == answers[|log|..]
      decreases |left|
    {
      var take := if |left| < MAX_WRITE then |left| else MAX_WRITE;
      var piece := left[..take];
      FirstSlice(left);
      OneFramed(piece, framing);
      var more;
      r, more, rest := WriteAll(Framed(piece, framing), rest);
      PartWritten(log, more, done, [piece], all, framing, [], answers, r);
      log, written := log + more, written + take;
      if !r.Done? {
        return;
      }
      done, left := done + [piece], left[take..];
    }
    assert done == all;
    r := Done;
  }

  lemma FirstFrame(body: seq<Frame>)
    requires body != []
    ensures body[0].Data? ==> Cut(Pieces(body)) == Slices(body[0].bytes) + Cut(Pieces(body[1..]))
    ensures body[0].Trailers? ==> Pieces(body) == Pieces(body[1..])
    ensures !body[0].Fault? ==> Failure(body) == Failure(body[1..])
    ensures body[0].Fault? ==> Failure(body) == Some(body[0].code) && Cut(Pieces(body)) == []
  {
    if body[0].Data? && body[0].bytes != [] {
      assert Pieces(body)[1..] == Pieces(body[1..]);
    }
  }

  /** Drain the body.  Whatever the platform takes is a prefix of the framed body; only a complete and
      matching body is reported written, and a mismatch is found once everything was written. */
  method WriteBody(frames: seq<Frame>, framing: Framing, answers: seq<Answer>)
    returns (r: Outcome, log: seq<Offer>)
    ensures InOrder(log, Encoded(frames, framing), 0) && Taken(log) <= Encoded(frames, framing)
    ensures r.Written? <==> && Failure(frames).None?
                            && Taken(log) == Encoded(frames, framing)
                            && (framing.Exact? ==> |Content(frames)| == framing.length)
    ensures r.BadSource? ==> Failure(frames) == Some(r.code) && Taken(log) == FramedPieces(Cut(Pieces(frames)), framing)
    ensures r.LengthMismatch? ==> && framing == Exact(r.declared) && r.actual == |Content(frames)| != r.declared
                                  && Taken(log) == Content(frames) && Failure(frames).None?
    ensures r.Io? ==> Truthful(r.status, log) && !r.status.Done? && Taken(log) != Encoded(frames, framing)
    ensures Follows(log, answers) && !r.BodyTooLarge?
  {
    hide InOrder, Taken, Flatten, FramedPieces, Pieces, Failure, Cut, Slices, Follows, Truthful;
    ghost var all := Cut(Pieces(frames));
    ghost var wire := Encoded(frames, framing);
    ghost var tail := Terminator(framing);
    CuttingKeepsTheBytes(Pieces(frames));
    ExactIsPlain(all, framing);
    NothingYet(framing, wire, answers);
    var body, rest := frames, answers;
    var written := 0;
    var status, more, count;
    ghost var done: seq<Bytes> := [];
    log := [];
    while body != []
      invariant done + Cut(Pieces(body)) == all && Failure(body) == Failure(frames)
      invariant InOrder(log, wire, 0) && Taken(log) == FramedPieces(done, framing)
      invariant Taken(log) <= wire && written == |Flatten(done)|
      invariant Follows(log, answers) && |log| <= |answers| && rest == answers[|log|..]
      decreases |body|
    {
      var frame := body[0];
      FirstFrame(body);
      if frame.Fault? {
        assert done == all;
        return BadSource(frame.code), log;
      }
      body := body[1..];
      if frame.Data? {
        status, more, rest, count := WriteFrame(frame.bytes, framing, rest);
        PartWritten(log, more, done, Slices(frame.bytes), all, framing, tail, answers, status);
        Counted(done, frame.bytes);
        log, written, done := log + more, written + count, done + Slices(frame.bytes);
        if !status.Done? {
          return Io(status), log;
        }
      }
    }
    NoFrames();
    assert done == all;
    if framing.Exact? && framing.length != written {
      return LengthMismatch(framing.length, written), log;
    }
    if framing.Exact? {
      return Written, log;
    }
    status, more, rest := WriteAll(LAST_CHUNK, rest);
    Terminated(log, more, all, answers, status);
    log := log + more;
    r := if status.Done? then Written else Io(status);
  }

  lemma NoFrames()
    ensures Cut(Pieces([])) == [] && Failure([]).None?
  {
  }

  lemma ExactIsPlain(all: seq<Bytes>, framing: Framing)
    ensures framing.Exact? ==>
              FramedPieces(all, framing) + Terminator(framing) == Flatten(all) == FramedPieces(all, framing)
  {
  }

  lemma Counted(done: seq<Bytes>, data: Bytes)
    ensures |Flatten(done + Slices(data))| == |Flatten(done)| + |data|
  {
    FlattenAppend(done, Slices(data));
    SlicesKeepTheData(data);
  }

  lemma Terminated(log: seq<Offer>, more: seq<Offer>, all: seq<Bytes>, answers: seq<Answer>, s: Status)
    requires var wire := FramedPieces(all, Chunked) + LAST_CHUNK; InOrder(log, wire, 0)
    requires Taken(log) == FramedPieces(all, Chunked)
    requires Follows(log, answers) && |log| <= |answers| && Follows(more, answers[|log|..]) && Truthful(s, more)
    requires InOrder(more, LAST_CHUNK, 0) && Taken(more) <= LAST_CHUNK && (s.Done? <==> Taken(more) == LAST_CHUNK)
    ensures var wire := FramedPieces(all, Chunked) + LAST_CHUNK;
            && InOrder(log + more, wire, 0) && Taken(log + more) <= wire
            && (s.Done? <==> Taken(log + more) == wire)
    ensures Follows(log + more, answers) && Truthful(s, log + more)
  {
    hide FramedPieces, InOrder, Taken, Follows, Truthful;
    LogsJoin(log, more, LAST_CHUNK, FramedPieces(all, Chunked) + LAST_CHUNK);
    TruthJoins(log, more, s);
    AnswersJoin(log, more, answers);
  }

  // ---------------------------------------------------------------- the request

  /** The length told to the platform, which takes 32 bits. */
  function TotalLength(framing: Framing): nat {
    if framing.Exact? then framing.length % (U32_MAX + 1) else 0
  }

  /** What the peer has in front of it: the platform declares the total length, the caller the coding. */
  function Arrived(framing: Framing, log: seq<Offer>): Message {
    if framing.Chunked? then Message(None, Some(CHUNKED), Taken(log))
    else Message(Some(Print(TotalLength(framing), Decimal)), None, Taken(log))
  }

  lemma ExactArrival(n: nat, body: Bytes)
    requires n <= 0xFFFF_FFFF
    ensures ReadRequest(Message(Some(Print(TotalLength(Exact(n)), Decimal)), None, body))
            == if |body| < n then Unfinished else Complete(body[..n], body[n..])
  {
    hide Print, ReadNumber;
    PrintedNumberReadsBack(n, Decimal);
  }

  lemma ChunkedArrival(frames: seq<Frame>, taken: Bytes)
    requires taken <= Encoded(frames, Chunked)
    ensures ReadRequest(Message(None, Some(CHUNKED), taken))
            == if taken == Encoded(frames, Chunked) then Complete(Content(frames), []) else Unfinished
  {
    hide Cut, Flatten, DecodeChunked;
    var parts := Cut(Pieces(frames));
    CuttingKeepsTheBytes(Pieces(frames));
    ChunkedBodyReadsBack(parts, []);
    assert ChunkedBody(parts) + [] == ChunkedBody(parts) == Encoded(frames, Chunked);
    if taken != ChunkedBody(parts) {
      assert taken == ChunkedBody(parts)[..|taken|];
      ChunkedBodyIsPrefixFree(parts, |taken|);
    }
  }

  /** The body is longer than declared, or fails once it has produced all it declared. */
  predicate Misleading(frames: seq<Frame>, declared: nat) {
    |Content(frames)| > declared || (|Content(frames)| == declared && Failure(frames).Some?)
  }

  /** Send a request.  A written request is read as exactly its body; an interrupted chunked one is never
      taken for a whole message. */
  method Request(hint: Option<nat>, frames: seq<Frame>, head: Answer, answers: seq<Answer>)
    returns (r: Outcome, peer: Option<Message>, log: seq<Offer>)
    ensures r.BodyTooLarge? <==> hint.Some? && hint.value > 0xFFFF_FFFF
    ensures peer.Some? <==> !r.BodyTooLarge? && head.Wrote?
    ensures peer.Some? ==> peer.value.body == Taken(log) && Follows(log, answers)
    ensures peer.Some? && r.Io? ==> Truthful(r.status, log) && !r.status.Done?
    ensures r.Written? ==> peer.Some? && ReadRequest(peer.value) == Complete(Content(frames), [])
    ensures peer.Some? && hint.None? && !r.Written? ==> ReadRequest(peer.value).Unfinished?
    // With a declared length the peer is misled only by a body that is too long, or that fails when it is whole.
    ensures peer.Some? && hint.Some? && !r.Written? && !Misleading(frames, hint.value) ==>
              ReadRequest(peer.value).Unfinished?
    ensures peer.Some? && hint.Some? && !r.Written? && !r.Io? ==>
              (ReadRequest(peer.value).Unfinished? <==> !Misleading(frames, hint.value))
    // Every error is true of the body.
    ensures r.BadSource? ==> Failure(frames) == Some(r.code)
    ensures r.LengthMismatch? ==> && hint == Some(r.declared) && Failure(frames).None?
                                  && r.actual == |Content(frames)| != r.declared
    ensures r.LengthMismatch? && r.actual > r.declared ==>
              && peer.Some?
              && ReadRequest(peer.value) == Complete(Content(frames)[..r.declared], Content(frames)[r.declared..])
    ensures r.BadSource? && hint.Some? && hint.value <= |Content(frames)| ==>
              && peer.Some?
              && ReadRequest(peer.value) == Complete(Content(frames)[..hint.value], Content(frames)[hint.value..])
  {
    hide InOrder, Taken, Flatten, FramedPieces, Pieces, Failure, Cut, Follows, Truthful, ReadRequest, Print;
    if hint.Some? && hint.value > U32_MAX {
      return BodyTooLarge(hint.value), None, [];
    }
    if !head.Wrote? {
      return Io(if head.Failed? then Broken else Waiting), None, [];
    }
    var framing := if hint.Some? then Exact(hint.value) else Chunked;
    r, log := WriteBody(frames, framing, answers);
    peer := Some(Arrived(framing, log));
    if hint.Some? {
      ExactArrival(hint.value, Taken(log));
      CuttingKeepsTheBytes(Pieces(frames));
      ExactIsPlain(Cut(Pieces(frames)), framing);
    } else {
      ChunkedArrival(frames, Taken(log));
    }
  }

  /** What the peer reads once a declared body of this content has been taken whole. */
  lemma WholeArrival(frames: seq<Frame>, n: nat, log: seq<Offer>)
    requires n <= U32_MAX && Taken(log) == Encoded(frames, Exact(n))
    ensures ReadRequest(Arrived(Exact(n), log))
            == if |Content(frames)| < n then Unfinished else Complete(Content(frames)[..n], Content(frames)[n..])
  {
    hide Print, ReadRequest, Taken, Cut, Flatten;
    CuttingKeepsTheBytes(Pieces(frames));
    ExactIsPlain(Cut(Pieces(frames)), Exact(n));
    ExactArrival(n, Content(frames));
  }

  /** The claim that fails, first: two bytes declared as one are written before the mismatch is found, and the
      peer has a whole request and a stray byte. */
  lemma TooLongBodyIsMisread()
    ensures var frames, log := [Frame.Data([1, 2])], [Offer([1, 2], Wrote(2))];
            && InOrder(log, Encoded(frames, Exact(1)), 0) && Taken(log) == Encoded(frames, Exact(1))
            && ReadRequest(Arrived(Exact(1), log)) == Complete([1], [2])
  {
    var frames, log := [Frame.Data([1, 2])], [Offer([1, 2], Wrote(2))];
    PlainPair(frames);
    assert log[1..] == [];
    WholeArrival(frames, 1, log);
  }

  /** And second: a body that fails after all it declared leaves the peer with a complete request. */
  lemma LateFailureIsMisread()
    ensures var frames, log := [Frame.Data([1, 2]), Fault(5)], [Offer([1, 2], Wrote(2))];
            && Failure(frames) == Some(5)
            && InOrder(log, Encoded(frames, Exact(2)), 0) && Taken(log) == Encoded(frames, Exact(2))
            && ReadRequest(Arrived(Exact(2), log)) == Complete([1, 2], [])
  {
    var frames, log := [Frame.Data([1, 2]), Fault(5)], [Offer([1, 2], Wrote(2))];
    PlainPair(frames);
    assert log[1..] == [];
    WholeArrival(frames, 2, log);
  }

  lemma PlainPair(frames: seq<Frame>)
    requires frames != [] && frames[0] == Frame.Data([1, 2]) && (frames[1..] == [] || frames[1..] == [Fault(5)])
    ensures Content(frames) == [1, 2] && Failure(frames) == if frames[1..] == [] then None else Some(5)
    ensures forall n :: Encoded(frames, Exact(n)) == [1, 2]
  {
    assert Pieces(frames) == [[1, 2]];
    FlattenOne([1, 2]);
    CuttingKeepsTheBytes(Pieces(frames));
  }
}
