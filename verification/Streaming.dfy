/**
 Sending a reply as raw frames that end in trailers, the path gRPC takes: nothing is framed
 by hand, and once the head is out the response is closed whatever happens to the body.
 */
module Streaming {
  import opened Wrappers
  import opened Wire
  import opened Body
  import opened Reply
  import opened Server

  /** The trailers of a body, later fields replacing earlier ones of the same name. */
  function Folded(frames: seq<Frame>): Fields {
    if frames == [] || frames[0].Fault? then map[]
    else if frames[0].Trailers? then frames[0].fields + Folded(frames[1..])
    else Folded(frames[1..])
  }

  /** A field is there exactly if some trailers frame before a failure names it, and the last of these gives its
      values. */
  lemma {:induction false} LastTrailersWin(frames: seq<Frame>, name: string)
    ensures name in Folded(frames) <==>
              exists i :: 0 <= i < FaultAt(frames) && frames[i].Trailers? && name in frames[i].fields
    ensures forall i :: 0 <= i < FaultAt(frames) && IsLastNaming(frames, i, name) ==>
              name in Folded(frames) && Folded(frames)[name] == frames[i].fields[name]
  {
    if frames != [] && !frames[0].Fault? {
      var rest := frames[1..];
      LastTrailersWin(rest, name);
      assert forall i :: 0 <= i < |rest| ==> rest[i] == frames[i + 1];
      assert FaultAt(frames) == FaultAt(rest) + 1;
      if name in Folded(rest) {
        var i :| 0 <= i < FaultAt(rest) && rest[i].Trailers? && name in rest[i].fields;
        assert frames[i + 1] == rest[i];
      }
      forall i | 0 <= i < FaultAt(frames) && IsLastNaming(frames, i, name)
        ensures name in Folded(frames) && Folded(frames)[name] == frames[i].fields[name]
      {
        if i > 0 {
          assert IsLastNaming(rest, i - 1, name);
        }
      }
    }
  }

  /** No later trailers frame before a failure names the field. */
  ghost predicate IsLastNaming(frames: seq<Frame>, i: nat, name: string) {
    && i < |frames| && frames[i].Trailers? && name in frames[i].fields
    && forall j :: i < j < FaultAt(frames) && frames[j].Trailers? ==> name !in frames[j].fields
  }

  /** The next non-empty data frame or trailers. */
  method NextFrame(frames: seq<Frame>) returns (r: Result<Option<Frame>, nat>, rest: seq<Frame>)
    ensures r.Err? ==> Failure(frames) == Some(r.error) && Pieces(frames) == []
    ensures r.Ok? ==> Failure(rest) == Failure(frames)
    ensures r == Ok(None) ==> Pieces(frames) == [] && Folded(frames) == map[] && Failure(frames).None?
    ensures r.Ok? && r.value.Some? ==>
              match r.value.value
              case Data(bytes) =>
                bytes != [] && Pieces(frames) == [bytes] + Pieces(rest) && Folded(frames) == Folded(rest)
              case Trailers(fields) => Pieces(frames) == Pieces(rest) && Folded(frames) == fields + Folded(rest)
              case Fault(_) => false
    ensures r.Ok? && r.value.Some? ==> |rest| < |frames|
  {
    rest := frames;
    while rest != []
      invariant Pieces(rest) == Pieces(frames) && Failure(rest) == Failure(frames) && Folded(rest) == Folded(frames)
      invariant |rest| <= |frames|
      decreases |rest|
    {
      var frame := rest[0];
      if frame.Fault? {
        return Err(frame.code), rest;
      }
      rest := rest[1..];
      if !frame.Data? || frame.bytes != [] {
        return Ok(Some(frame)), rest;
      }
    }
    return Ok(None), rest;
  }

  /** Pieces that no length bounds go to the platform as they are. */
  function RawCalls(pieces: seq<Bytes>): seq<Call> {
    PieceCalls(pieces, Exact(0))
  }

  /** The call that ends the response. */
  function Closing(trailers: Fields, supported: bool): Call {
    if supported && trailers != map[] then SendTrailers(trailers) else SendBody([], true)
  }

  /** Exactly one call closes the response, and it is the last one. */
  ghost predicate ClosedOnce(calls: seq<Call>) {
    calls != [] && Closes(calls[|calls| - 1]) && !Finished(calls[..|calls| - 1])
  }

  /** Write the body until it is over, it fails, or a write does. */
  method Drain(frames: seq<Frame>, answers: seq<bool>)
    returns (r: Outcome, calls: seq<Call>, trailers: Fields, rest: seq<bool>)
    ensures calls <= RawCalls(Pieces(frames))
    ensures r.Sent? ==> calls == RawCalls(Pieces(frames)) && trailers == Folded(frames) && Failure(frames).None?
    ensures r.BadBody? ==> Failure(frames).Some? && r.e == Source(Failure(frames).value)
    ensures r.BadBody? ==> calls == RawCalls(Pieces(frames))
    ensures Honest(r, |calls|, answers) && !r.BadHead?
    ensures !r.Waiting? ==> |calls| <= |answers| && rest == answers[|calls|..]
  {
    hide Pieces, Failure, Folded, WriteCalls, PieceCalls, Accepting;
    Accepted(answers);
    NoCalls();
    calls, trailers, rest := [], map[], answers;
    var body := frames;
    ghost var done: seq<Bytes> := [];
    while true
      invariant done + Pieces(body) == Pieces(frames) && Failure(body) == Failure(frames)
      invariant trailers + Folded(body) == Folded(frames)
      invariant calls == RawCalls(done)
      invariant |calls| <= |answers| && Accepting(answers[..|calls|]) && rest == answers[|calls|..]
      decreases |body|
    {
      PieceCallsGrow(done, Pieces(body), Exact(0));
      var next, after := NextFrame(body);
      if next.Err? {
        assert done == Pieces(frames);
        return BadBody(Source(next.error)), calls, trailers, rest;
      }
      if next.value.None? {
        assert done == Pieces(frames) && trailers == Folded(frames);
        return Sent, calls, trailers, rest;
      }
      if next.value.value.Trailers? {
        trailers := trailers + next.value.value.fields;
      } else {
        var piece := next.value.value.bytes;
        var more;
        var left := rest;
        PieceCallsOneMore(done, piece);
        assert done + [piece] + Pieces(after) == Pieces(frames);
        PieceCallsGrow(done + [piece], Pieces(after), Exact(0));
        r, more, left := Write(piece, false, rest);
        HonestAfter(|calls|, r, |more|, answers);
        calls := calls + more;
        if !r.Sent? {
          return r, calls, trailers, if r.Waiting? then [] else answers[|calls|..];
        }
        rest := left;
        done := done + [piece];
      }
      body := after;
    }
  }

  lemma NoCalls()
    ensures RawCalls([]) == []
  {
  }

  lemma PieceCallsOneMore(done: seq<Bytes>, piece: Bytes)
    ensures RawCalls(done + [piece]) == RawCalls(done) + WriteCalls(piece, false)
  {
    assert (done + [piece])[..|done|] == done;
  }

  /** A head, some of the body and one more call. */
  lemma ClosedAfter(head: Head, calls: seq<Call>, pieces: seq<Bytes>, last: Call)
    requires calls <= RawCalls(pieces) && Closes(last)
    ensures ClosedOnce([SendHead(head)] + calls + [last])
    ensures Handed(calls) <= Flatten(pieces)
  {
    hide PieceCalls, Handed;
    PiecesHandOver(pieces, Exact(0));
    PrefixHandsLess(calls, RawCalls(pieces));
    var all := [SendHead(head)] + calls + [last];
    assert all[..|all| - 1] == [SendHead(head)] + calls;
  }

  /** The call that closes a response whose writes were accepted. */
  function ClosingOf(frames: seq<Frame>, supported: bool): Call {
    if Failure(frames).Some? then SendBody([], true) else Closing(Folded(frames), supported)
  }

  /** The exchange up to some call, or cut short by an empty closing call after a refused write. */
  ghost predicate UpTo(calls: seq<Call>, head: Head, frames: seq<Frame>, supported: bool, answers: seq<bool>) {
    || calls <= [SendHead(head)] + RawCalls(Pieces(frames)) + [ClosingOf(frames, supported)]
    || (CutShort(calls, answers) && calls[..|calls| - 1] <= [SendHead(head)] + RawCalls(Pieces(frames)))
  }

  /** Every call was accepted, apart from the last one, and from one body write just before an empty closing
      call; a wait is for the last call. */
  ghost predicate Answered(r: Outcome, calls: seq<Call>, answers: seq<bool>) {
    var n := |calls|;
    match r
    case Sent => 0 < n <= |answers| && Accepting(answers[..n])
    case BadBody(_) => 0 < n <= |answers| && Accepting(answers[..n - 1])
    case BadHead(_) => n == 0
    case Refused =>
      0 < n <= |answers| && ((!answers[n - 1] && Accepting(answers[..n - 1])) || CutShort(calls, answers))
    case Waiting => n == |answers| + 1 && (Accepting(answers) || CutShort(calls, answers))
  }

  /** The call before the last was a body write that the platform refused, and the last one closes. */
  ghost predicate CutShort(calls: seq<Call>, answers: seq<bool>) {
    var n := |calls|;
    && 3 <= n <= |answers| + 1 && !answers[n - 2] && Accepting(answers[..n - 2])
    && calls[n - 2].SendBody? && !calls[n - 2].last && calls[n - 1] == SendBody([], true)
  }

  lemma HeadAnswered(head: Head, answers: seq<bool>)
    ensures !Answer(answers).Sent? ==> Answered(Answer(answers), [SendHead(head)], answers)
    ensures forall e :: Answered(BadHead(e), [], answers)
    ensures Answer(answers).Sent? <==> answers != [] && answers[0]
  {
  }

  lemma BodyAnswered(drained: Outcome, head: Head, more: seq<Call>, answers: seq<bool>)
    requires answers != [] && answers[0] && Honest(drained, |more|, answers[1..])
    ensures Honest(drained, 1 + |more|, answers)
    ensures drained.Waiting? ==> Answered(drained, [SendHead(head)] + more, answers)
  {
    Accepted(answers);
    HonestAfter(1, drained, |more|, answers);
  }

  /** The closing call after a body that went out, failed or was refused. */
  lemma CloseAnswered(drained: Outcome, head: Head, more: seq<Call>, last: Call, answers: seq<bool>)
    requires Honest(drained, 1 + |more|, answers) && 1 + |more| <= |answers|
    requires drained.Sent? || drained.BadBody? || (drained.Refused? && last == SendBody([], true))
    requires AllBody(more) && (drained.Refused? ==> more != [])
    ensures var calls, closed := [SendHead(head)] + more + [last], Answer(answers[1 + |more|..]);
            && Answered(if drained.Sent? || closed.Waiting? then closed else drained, calls, answers)
            && (drained.Refused? ==> CutShort(calls, answers))
  {
    var n := 1 + |more|;
    var calls := [SendHead(head)] + more + [last];
    if drained.Refused? {
      assert calls[n - 1] == more[|more| - 1];
      assert CutShort(calls, answers);
    } else {
      OneAnswer(n, answers);
    }
  }

  ghost predicate AllBody(calls: seq<Call>) {
    forall i :: 0 <= i < |calls| ==> calls[i].SendBody? && !calls[i].last
  }

  lemma {:induction false} RawCallsAreBody(pieces: seq<Bytes>)
    ensures AllBody(RawCalls(pieces))
  {
    if pieces != [] {
      RawCallsAreBody(pieces[..|pieces| - 1]);
      WritesHandOverTheBuffer(pieces[|pieces| - 1], false);
    }
  }

  lemma JustTheHead(head: Head, frames: seq<Frame>, supported: bool, answers: seq<bool>)
    ensures UpTo([SendHead(head)], head, frames, supported, answers)
  {
  }

  lemma FarAlong(head: Head, more: seq<Call>, frames: seq<Frame>, supported: bool, answers: seq<bool>)
    requires more <= RawCalls(Pieces(frames))
    ensures UpTo([SendHead(head)] + more, head, frames, supported, answers) && AllBody(more)
    ensures var calls := [SendHead(head)] + more + [SendBody([], true)];
            CutShort(calls, answers) ==> UpTo(calls, head, frames, supported, answers)
    ensures var calls := [SendHead(head)] + more + [ClosingOf(frames, supported)];
            more == RawCalls(Pieces(frames)) ==> UpTo(calls, head, frames, supported, answers)
  {
    hide RawCalls, Pieces, Failure, Folded;
    RawCallsAreBody(Pieces(frames));
    var calls := [SendHead(head)] + more + [SendBody([], true)];
    assert calls[..|calls| - 1] == [SendHead(head)] + more;
  }

  /** Send the head, the body raw, and one closing call. */
  method SendStreaming(status: nat, headers: Headers, frames: seq<Frame>, supported: bool, answers: seq<bool>)
    returns (r: Outcome, calls: seq<Call>)
    ensures r.BadHead? <==> Values(headers, TRANSFER_ENCODING) != []
    ensures r.BadHead? ==> calls == []
    ensures r.Sent? ==> calls == [SendHead(Carried(status, headers))] + RawCalls(Pieces(frames))
                                 + [Closing(Folded(frames), supported)]
    ensures calls != [] ==> calls[0] == SendHead(Carried(status, headers))
    ensures r.Sent? ==>
              calls[|calls| - 1] == if supported && Folded(frames) != map[] then SendTrailers(Folded(frames))
                                    else SendBody([], true)
    ensures r.Sent? ==> Failure(frames).None? && Handed(calls) == Content(frames)
    // Once the head was accepted the response is closed exactly once, whatever failed in between.
    ensures answers != [] && answers[0] && !r.Waiting? && !r.BadHead? ==> ClosedOnce(calls)
    ensures Handed(calls) <= Content(frames)
    ensures r.BadBody? ==> && Failure(frames).Some? && r.e == Source(Failure(frames).value)
                           && Handed(calls) == Content(frames)
    // Failed or waiting, the calls are the exchange up to there, and the outcome is the platform's.
    ensures calls != [] ==> UpTo(calls, Carried(status, headers), frames, supported, answers)
    ensures Answered(r, calls, answers)
  {
    hide Pieces, Failure, Folded, WriteCalls, PieceCalls, Handed, Finished, Flatten, Accepting, Honest,
      Answered, RawCalls, UpTo, ClosedOnce, CutShort;
    NothingHanded();
    HeadAnswered(Carried(status, headers), answers);
    var made := FromHttp(status, headers);
    if made.Err? {
      return BadHead(made.error), [];
    }
    calls := [SendHead(made.value)];
    NothingHandedYet(made.value, [], Exact(0));
    JustTheHead(made.value, frames, supported, answers);
    r := Answer(answers);
    if !r.Sent? {
      return;
    }
    var drained, more, trailers, rest := Drain(frames, answers[1..]);
    BodyAnswered(drained, made.value, more, answers);
    WhatIsHanded(made.value, more, Pieces(frames));
    FarAlong(made.value, more, frames, supported, answers);
    calls := calls + more;
    if drained.Waiting? {
      return drained, calls;
    }
    var last := if drained.Sent? then Closing(trailers, supported) else SendBody([], true);
    ClosedAfter(made.value, more, Pieces(frames), last);
    ClosingHandsNothing(calls, last);
    CloseAnswered(drained, made.value, more, last, answers);
    calls := calls + [last];
    r := Answer(rest);
    if drained.Sent? || r.Waiting? {
      return;
    }
    r := drained;
  }

  lemma ClosingHandsNothing(calls: seq<Call>, last: Call)
    requires last == SendBody([], true) || last.SendTrailers?
    ensures Handed(calls + [last]) == Handed(calls)
  {
    HandedAppends(calls, [last]);
    assert [last][1..] == [];
  }

  lemma WhatIsHanded(head: Head, calls: seq<Call>, pieces: seq<Bytes>)
    requires calls <= RawCalls(pieces)
    ensures Handed([SendHead(head)] + calls) == Handed(calls) <= Flatten(pieces)
    ensures calls == RawCalls(pieces) ==> Handed(calls) == Flatten(pieces)
  {
    PiecesHandOver(pieces, Exact(0));
    PrefixHandsLess(calls, RawCalls(pieces));
    HandedAppends([SendHead(head)], calls);
    assert [SendHead(head)][1..] == [];
  }
}
