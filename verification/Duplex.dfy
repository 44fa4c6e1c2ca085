/**
 The response body of a duplex HTTP/2 request: every turn sends the request frames that are
 ready and then reads once, until the response ends in trailers, an end or an error.
 */
module Duplex {
  import opened Wrappers
  import opened Wire
  import opened Body
  import opened Transmit
  import opened Client
  import opened H2
  import Headers
  import Incoming = ResponseBody

  /** What one completed turn met: how many frames were ready (the end of the body counts as one), how the
      writes were answered, what the read found and what trailers there were.  A write without an answer
      counts as failed. */
  datatype Turn = Turn(ready: nat, answers: seq<Answer>, read: Incoming.Turn,
                       trailers: Result<Option<Headers.Text>, nat>)

  datatype TurnError = WriteError(code: nat) | ReadError(code: nat)

  datatype Item = Data(bytes: Bytes) | Trailers(listing: seq<Headers.Entry>) | Fail(e: TurnError) | End

  datatype Poll = Pending | Ready(item: Item)

  /** The rest of the request body, and whether it is not to be sent any more. */
  datatype State = Active(body: seq<Frame>, writeDone: bool) | Busy(body: seq<Frame>, writeDone: bool) | Finished

  // ---------------------------------------------------------------- sending

  /** What was taken, and what is left to send, make up the whole. */
  ghost predicate Splits(log: seq<Offer>, body: seq<Frame>, whole: seq<Frame>, framing: H2Framing) {
    Taken(log) + Closed(body, framing) == Closed(whole, framing) && Failure(body) == Failure(whole)
  }

  lemma {:induction false} NextFrame(body: seq<Frame>, framing: H2Framing)
    requires body != [] && !body[0].Fault?
    ensures var sent := if body[0].Data? then FramedPieces(Slices(body[0].bytes), Coding(framing)) else [];
            Closed(body, framing) == sent + Closed(body[1..], framing)
    ensures Failure(body) == Failure(body[1..])
  {
    hide FramedPieces, Slices, Cut, Terminator, Pieces, Failure;
    FirstFrame(body);
    if body[0].Data? {
      FramedTogether(Slices(body[0].bytes), Cut(Pieces(body[1..])), Coding(framing));
    }
  }

  lemma NothingLeft(framing: H2Framing)
    ensures Closed([], framing) == Terminator(Coding(framing)) && Payload([], framing) == [] && Failure([]).None?
  {
    NothingYet(Coding(framing), [], []);
    NoFrames();
    assert Payload([], framing) == [];
  }

  /** One more run of offers for the front of what is left. */
  lemma SentMore(log: seq<Offer>, more: seq<Offer>, sent: Bytes, rest: Bytes, wire: Bytes)
    requires InOrder(log, wire, 0) && Taken(log) + (sent + rest) == wire && InOrder(more, sent, 0)
    ensures InOrder(log + more, wire, 0) && Taken(log + more) == Taken(log) + Taken(more) <= wire
    ensures Taken(more) == sent ==> Taken(log + more) + rest == wire
  {
    hide InOrder, Taken;
    var at := |Taken(log)|;
    forall i | 0 <= i < |sent|
      ensures sent[i] == wire[at + i]
    {
      assert (Taken(log) + (sent + rest))[at + i] == (sent + rest)[i];
    }
    assert IsAt(sent, wire, at);
    LogsJoin(log, more, sent, wire);
  }

  lemma {:induction false} FaultAtFront(frames: seq<Frame>, k: nat)
    ensures k <= FaultAt(frames) && k < |frames| ==> (frames[k].Fault? <==> k == FaultAt(frames))
  {
    if frames != [] && !frames[0].Fault? {
      FaultAtFront(frames[1..], if k > 0 then k - 1 else 0);
    }
  }

  /** The last write was refused, took nothing, or was never answered. */
  predicate Halted(log: seq<Offer>) {
    log != [] && (!log[|log| - 1].answer.Wrote? || log[|log| - 1].answer.n == 0)
  }

  lemma HaltedNow(log: seq<Offer>, more: seq<Offer>, s: Status)
    requires Truthful(s, more)
    ensures !s.Done? ==> Halted(log + more)
  {
  }

  lemma NothingFollows(answers: seq<Answer>)
    ensures Follows([], answers)
  {
  }

  /** Send the frames that are ready.  A write that fails ends the sending without an error. */
  method SendReady(whole: seq<Frame>, framing: H2Framing, ready: nat, answers: seq<Answer>)
    returns (body: seq<Frame>, writeDone: bool, failed: Option<nat>, log: seq<Offer>,
             ended: Option<Answer>)
    ensures InOrder(log, Closed(whole, framing), 0) && Taken(log) <= Closed(whole, framing)
    ensures !writeDone && failed.None? ==> Splits(log, body, whole, framing)
    ensures failed.Some? ==> Failure(whole) == failed && !writeDone && Taken(log) == Payload(whole, framing)
    ensures ended.Some? ==> && framing.Automatic? && writeDone && Failure(whole).None?
                            && Taken(log) == Payload(whole, framing)
    // The empty closing write gets the answer after those of the other writes.
    ensures ended.Some? ==> ended.value == if |log| < |answers| then answers[|log|] else Unanswered
    // Everything that is ready is sent, until a write is refused or the body is over.
    ensures Follows(log, answers)
    ensures failed.Some? ==> FaultAt(whole) < ready && FaultAt(whole) < |whole|
    ensures !writeDone && failed.None? ==> ready <= FaultAt(whole) && body == whole[ready..]
    ensures writeDone ==> || Halted(log)
                          || (FaultAt(whole) == |whole| < ready && Taken(log) == Closed(whole, framing)
                              && (framing.Automatic? ==> ended.Some?))
  {
    hide InOrder, Taken, FramedPieces, Slices, Pieces, Failure, Follows, Truthful, Closed, Payload, Terminator, Cut,
      FaultAt, Halted;
    ghost var wire := Closed(whole, framing);
    NothingOffered(wire);
    FaultAtFront(whole, 0);
    assert Follows([], answers) by { NothingFollows(answers); }
    body, writeDone, failed, log, ended := whole, false, None, [], None;
    var left, rest := ready, answers;
    var status, more, count;
    while left > 0
      invariant !writeDone && failed.None? && ended.None?
      invariant InOrder(log, wire, 0) && Taken(log) <= wire && Taken(log) + Closed(body, framing) == wire
      invariant Failure(body) == Failure(whole)
      invariant ready - left <= FaultAt(whole) <= |whole| && body == whole[ready - left..]
      invariant Follows(log, answers) && |log| <= |answers| && rest == answers[|log|..]
      decreases left
    {
      FaultAtFront(whole, ready - left);
      left := left - 1;
      if body == [] {
        NothingLeft(framing);
        AllSent(log, whole, framing);
        ChunkedEnds();
        writeDone := true;
        if framing.ManualChunked? {
          status, more, rest := WriteAll(LAST_CHUNK, rest);
          SentMore(log, more, LAST_CHUNK, [], wire);
          HaltedNow(log, more, status);
          AnswersJoin(log, more, answers);
          log := log + more;
        } else if framing.Automatic? {
          ended := Some(if rest == [] then Unanswered else rest[0]);
        }
        return;
      }
      var frame := body[0];
      if frame.Fault? {
        FaultStops(log, body, whole, framing);
        failed := Some(frame.code);
        return;
      }
      NextFrame(body, framing);
      body := body[1..];
      if frame.Data? {
        status, more, rest, count := WriteFrame(frame.bytes, Coding(framing), rest);
        SentMore(log, more, FramedPieces(Slices(frame.bytes), Coding(framing)), Closed(body, framing), wire);
        HaltedNow(log, more, status);
        AnswersJoin(log, more, answers);
        log := log + more;
        if !status.Done? {
          writeDone := true;
          return;
        }
      }
    }
  }

  lemma ChunkedEnds()
    ensures Terminator(Coding(ManualChunked)) == LAST_CHUNK && LAST_CHUNK + [] == LAST_CHUNK
    ensures forall framing: H2Framing :: !framing.ManualChunked? ==> Terminator(Coding(framing)) == []
  {
  }

  /** At the end of the body everything but the terminator has been taken. */
  lemma AllSent(log: seq<Offer>, whole: seq<Frame>, framing: H2Framing)
    requires Taken(log) + Closed([], framing) == Closed(whole, framing)
    ensures Taken(log) == Payload(whole, framing)
  {
    hide Taken, Payload, Terminator;
    NothingLeft(framing);
    SamePrefix(Taken(log), Payload(whole, framing), Terminator(Coding(framing)));
  }

  lemma SamePrefix(a: Bytes, b: Bytes, tail: Bytes)
    requires a + tail == b + tail
    ensures a == b
  {
    assert |a| == |b|;
    assert (a + tail)[..|a|] == a && (b + tail)[..|b|] == b;
  }

  lemma FaultStops(log: seq<Offer>, body: seq<Frame>, whole: seq<Frame>, framing: H2Framing)
    requires body != [] && body[0].Fault? && Failure(body) == Failure(whole)
    requires Taken(log) + Closed(body, framing) == Closed(whole, framing)
    ensures Failure(whole) == Some(body[0].code) && Taken(log) == Payload(whole, framing)
  {
    hide Taken, FramedPieces, Cut, Terminator;
    FirstFrame(body);
    OneFramed([], Coding(framing));
    assert Payload(body, framing) == [];
    SamePrefix(Taken(log), Payload(whole, framing), Terminator(Coding(framing)));
  }

  // ---------------------------------------------------------------- receiving

  /** One read, and the trailers when it finds the end. */
  function ReadTurn(turn: Turn): Item {
    match Incoming.ReadOnce(turn.read, None)
    case Err(e) => Fail(ReadError(if e.Read? then e.code else 0))
    case Ok(Some(bytes)) => Item.Data(bytes)
    case Ok(None) =>
      match turn.trailers
      case Err(code) => Fail(ReadError(code))
      case Ok(None) => End
      case Ok(Some(raw)) =>
        var parsed := Headers.ParseLines(Headers.Lines(raw), true);
        if parsed.Ok? && parsed.value != [] then Item.Trailers(parsed.value) else End
  }

  predicate Last(p: Poll) {
    p.Ready? && !p.item.Data?
  }

  /** Data, then at most one of trailers, an error or the end, then the end for ever. */
  ghost predicate WellShaped(polls: seq<Poll>, finished: bool) {
    && (forall i, j :: 0 <= i < j < |polls| && Last(polls[i]) ==> polls[j] == Ready(End))
    && (forall i :: 0 <= i < |polls| && Last(polls[i]) ==> finished)
    && (forall i :: 0 <= i < |polls| && polls[i].Ready? && polls[i].item.Data? ==> polls[i].item.bytes != [])
    && (forall i :: 0 <= i < |polls| && polls[i].Ready? && polls[i].item.Trailers? ==> polls[i].item.listing != [])
  }

  /** Everything sent so far, in order, and the stream ended only over a whole body. */
  ghost predicate Sending(log: seq<Offer>, ended: bool, whole: seq<Frame>, framing: H2Framing) {
    && InOrder(log, Closed(whole, framing), 0) && Taken(log) <= Closed(whole, framing)
    && (ended ==> framing.Automatic? && Taken(log) == Payload(whole, framing))
  }

  lemma TurnsJoin(log: seq<Offer>, body: seq<Frame>, whole: seq<Frame>, framing: H2Framing, more: seq<Offer>,
                  rest: seq<Frame>, ended: bool, writeDone: bool)
    requires Sending(log, false, whole, framing) && Splits(log, body, whole, framing)
    requires Sending(more, ended, body, framing) && (!writeDone ==> Splits(more, rest, body, framing))
    ensures Sending(log + more, ended, whole, framing)
    ensures !writeDone ==> Splits(log + more, rest, whole, framing)
  {
    hide InOrder, Taken, Payload, Failure, Terminator;
    var wire := Closed(whole, framing);
    assert Taken(log) + (Closed(body, framing) + []) == wire;
    SentMore(log, more, Closed(body, framing), [], wire);
    if !writeDone {
      assert Taken(log) + Taken(more) + Closed(rest, framing) == Taken(log) + (Taken(more) + Closed(rest, framing));
    }
    if ended {
      var tail := Terminator(Coding(framing));
      assert Taken(log) + Payload(body, framing) + tail == Taken(log) + (Payload(body, framing) + tail);
      SamePrefix(Taken(log) + Payload(body, framing), Payload(whole, framing), tail);
    }
  }

  class DuplexBody {
    const framing: H2Framing
    var state: State
    ghost const whole: seq<Frame>
    ghost const sentBefore: bool
    ghost var log: seq<Offer>
    ghost var ended: bool
    ghost var polls: seq<Poll>

    ghost predicate Valid()
      reads this
    {
      && Sending(log, ended, whole, framing) && WellShaped(polls, state.Finished?)
      && (sentBefore ==> log == [] && !ended && (state.Finished? || state.writeDone))
      && (!state.Finished? && !state.writeDone ==> !ended && Splits(log, state.body, whole, framing))
    }

    constructor (body: seq<Frame>, framing: H2Framing, writeDone: bool)
      ensures Valid() && whole == body && log == [] && polls == [] && this.framing == framing && sentBefore == writeDone
    {
      this.framing, state := framing, Active(body, writeDone);
      whole, sentBefore, log, ended, polls := body, writeDone, [], false, [];
      new;
      NothingOffered(Closed(whole, framing));
    }

    /** One poll: what it sends continues what was sent, and what it yields keeps the shape of a body. */
    method PollFrame(turn: Option<Turn>) returns (p: Poll)
      requires Valid()
      modifies this
      ensures Valid() && old(log) <= log && polls == old(polls) + [p]
      ensures old(state.Finished?) ==> p == Ready(End) && log == old(log)
      ensures !old(state.Finished?) && turn.None? ==>
                p.Pending? && log == old(log) && state == Busy(old(state.body), old(state.writeDone))
      // What a completed turn yields is its read, or the failure of the request body if it got there.
      ensures !old(state.Finished?) && turn.Some? ==>
                var fault := FaultAt(old(state.body));
                || p == Ready(ReadTurn(turn.value))
                || (!old(state.writeDone) && fault < turn.value.ready && fault < |old(state.body)|
                    && p == Ready(Fail(WriteError(old(state.body)[fault].code))))
      ensures !old(state.Finished?) && turn.Some? && !old(state.writeDone)
              && FaultAt(old(state.body)) < Min(turn.value.ready, |old(state.body)|) && !Halted(log[|old(log)|..]) ==>
                p.Ready? && p.item.Fail? && p.item.e.WriteError?
      // What it sends are the frames that were ready, as far as the platform takes them.
      ensures !old(state.Finished?) && turn.Some? ==> Follows(log[|old(log)|..], turn.value.answers)
      ensures !old(state.Finished?) && old(state.writeDone) ==> log == old(log) && (state.Finished? || state.writeDone)
      ensures !old(state.Finished?) && turn.Some? && !state.Finished? && !state.writeDone ==>
                turn.value.ready <= |old(state.body)| && state.body == old(state.body)[turn.value.ready..]
      ensures !old(state.Finished?) && turn.Some? && !old(state.writeDone) && !state.Finished? && state.writeDone ==>
                || Halted(log[|old(log)|..])
                || (|old(state.body)| < turn.value.ready && (framing.Automatic? ==> ended))
    {
      hide InOrder, Taken, Payload, Closed, Failure, ReadTurn, Follows, Halted, FaultAt;
      if !state.Finished? && turn.Some? {
        var body, writeDone, failed := state.body, state.writeDone, None;
        ghost var was := log;
        NothingFollows(turn.value.answers);
        assert log[|was|..] == [];
        if !writeDone {
          FaultAtFront(state.body, FaultAt(state.body));
          var more, end;
          body, writeDone, failed, more, end := SendReady(state.body, framing, turn.value.ready, turn.value.answers);
          TurnsJoin(log, state.body, whole, framing, more, body, end.Some?, writeDone || failed.Some?);
          log, ended := log + more, end.Some?;
          assert log[|was|..] == more;
          FaultIsFailure(old(state.body));
        }
        var item := if failed.Some? then Fail(WriteError(failed.value)) else ReadTurn(turn.value);
        ReadsAreNotEmpty(turn.value);
        state := if item.Data? then Active(body, writeDone) else Finished;
        p := Ready(item);
      } else if !state.Finished? {
        state := Busy(state.body, state.writeDone);
        p := Pending;
      } else {
        p := Ready(End);
      }
      polls := polls + [p];
    }
  }

  /** The call of a turn that failed, if one did. */
  function FailedCall(turn: Turn): Option<nat> {
    match turn.read.available
    case Err(code) => Some(code)
    case Ok(0) => (match turn.trailers case Err(code) => Some(code) case Ok(_) => None)
    case Ok(_) => (match turn.read.data
                   case Err(code) => Some(code)
                   case Ok(data) =>
                     if data == [] then (match turn.trailers case Err(code) => Some(code) case Ok(_) => None) else None)
  }

  /** What a turn yields: the bytes that came; the code of the call that failed; the trailers the platform reports;
      and the end only when there are none that can be read. */
  lemma TurnYields(turn: Turn)
    ensures ReadTurn(turn).Data? <==> Incoming.Came(turn.read, None) != []
    ensures ReadTurn(turn).Data? ==> ReadTurn(turn).bytes == Incoming.Came(turn.read, None)
    ensures ReadTurn(turn).Fail? <==> FailedCall(turn).Some?
    ensures FailedCall(turn).Some? ==> ReadTurn(turn) == Fail(ReadError(FailedCall(turn).value))
    ensures ReadTurn(turn).Trailers? || ReadTurn(turn).End? ==>
              && turn.trailers.Ok?
              && match turn.trailers.value
                 case None => ReadTurn(turn) == End
                 case Some(raw) =>
                   var parsed := Headers.ParseLines(Headers.Lines(raw), true);
                   ReadTurn(turn) == if parsed.Err? || parsed.value == [] then End else Item.Trailers(parsed.value)
  {
    hide Headers.ParseLines, Headers.Lines;
    if turn.read.available.Ok? && turn.read.available.value > 0 && turn.read.data.Ok? {
      Incoming.ReadsMakeProgress(turn.read, None);
    }
  }

  /** Trailers printed from a header map arrive as that map. */
  lemma PrintedTrailersArrive(turn: Turn, listing: seq<Headers.Entry>)
    requires Headers.AllSendable(listing) && listing != []
    requires turn.trailers == Ok(Some(Headers.Block(listing)))
    requires Incoming.Came(turn.read, None) == [] && FailedCall(turn).None?
    ensures ReadTurn(turn) == Item.Trailers(Headers.TrimAll(listing))
  {
    hide Headers.ParseLines, Headers.Lines, Headers.Block, Headers.AllSendable;
    Headers.BlockReadsBack(listing, true);
    TurnYields(turn);
  }

  lemma ReadsAreNotEmpty(turn: Turn)
    ensures ReadTurn(turn).Data? ==> ReadTurn(turn).bytes != []
    ensures ReadTurn(turn).Trailers? ==> ReadTurn(turn).listing != []
  {
  }
}
