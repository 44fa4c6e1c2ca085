/**
 The head phase of an HTTP/2 request: body writes run beside the receive that waits for the
 response head, and stop when the head arrives.

 A script of ticks stands for the executor: each tick polls the receive, if it is still
 outstanding, and then the operation being awaited.  A run that consumes its ticks is suspended.
 */
module H2 {
  import opened Wrappers
  import opened Wire
  import opened Body
  import opened Recipient
  import opened Transmit
  import opened Client

  datatype H2Framing = Automatic | Exactly(length: nat) | ManualChunked

  /** What one poll finds: the receive's result if it is ready, and the operation's answer. */
  datatype Tick = Tick(receive: Option<bool>, op: Answer)

  /** What a run does, in order.  A write stands where it was submitted and carries the answer it got. */
  datatype Event =
    | Polled(head: Option<bool>)
    | Pulled
    | Write(offer: Offer)
    | EndStream(answer: Answer)

  datatype Driven =
    | Head(done: bool)
    | NoHead
    | SourceFailed(code: nat)
    | WriteFailed(status: Status)
    | Suspended

  // ---------------------------------------------------------------- framing

  /** On the wire a hand-framed body is chunked and every other is plain. */
  function Coding(framing: H2Framing): Framing {
    if framing.ManualChunked? then Chunked else Exact(0)
  }

  /** The data of a body as it goes to the platform, and with what closes it. */
  function Payload(frames: seq<Frame>, framing: H2Framing): Bytes {
    FramedPieces(Cut(Pieces(frames)), Coding(framing))
  }

  function Closed(frames: seq<Frame>, framing: H2Framing): Bytes {
    Payload(frames, framing) + Terminator(Coding(framing))
  }

  // ---------------------------------------------------------------- reading a trace

  /** The head, once a poll of the receive has brought it. */
  function Heard(trace: seq<Event>): Option<bool> {
    if trace == [] then None
    else if trace[0].Polled? && trace[0].head.Some? then trace[0].head
    else Heard(trace[1..])
  }

  /** The head as known after more has happened. */
  function Then(head: Option<bool>, trace: seq<Event>): Option<bool> {
    if head.Some? then head else Heard(trace)
  }

  function Offers(trace: seq<Event>): seq<Offer> {
    if trace == [] then []
    else if trace[0].Write? then [trace[0].offer] + Offers(trace[1..])
    else Offers(trace[1..])
  }

  predicate InFlight(e: Event) {
    (e.Write? && e.offer.answer.Unanswered?) || (e.EndStream? && e.answer.Unanswered?)
  }

  ghost predicate Settled(trace: seq<Event>) {
    forall i :: 0 <= i < |trace| ==> !InFlight(trace[i])
  }

  /** The platform refused a write, or took nothing of one. */
  predicate Refused(trace: seq<Event>) {
    exists i :: 0 <= i < |trace| && Refuses(trace[i])
  }

  predicate Refuses(e: Event) {
    || (e.Write? && (e.offer.answer.Failed? || e.offer.answer == Wrote(0)))
    || (e.EndStream? && e.answer.Failed?)
  }

  lemma RefusedJoins(a: seq<Event>, b: seq<Event>)
    ensures Refused(b) ==> Refused(a + b)
  {
    if Refused(b) {
      var i :| 0 <= i < |b| && Refuses(b[i]);
      assert (a + b)[|a| + i] == b[i];
    }
  }

  lemma RefusedHere(before: seq<Event>, e: Event, after: seq<Event>)
    requires Refuses(e)
    ensures Refused(before + [e] + after)
  {
    assert (before + [e] + after)[|before|] == e;
  }

  /** While a write is in flight nothing else happens but polls of the receive. */
  ghost predicate NoneAbandoned(trace: seq<Event>) {
    forall i, j :: 0 <= i < j < |trace| && InFlight(trace[i]) ==> trace[j].Polled?
  }

  /** The receive is polled before anything is written. */
  predicate ReceiveFirst(trace: seq<Event>) {
    trace == [] || trace[0].Polled?
  }

  predicate OnlyPolls(trace: seq<Event>) {
    forall i :: 0 <= i < |trace| ==> trace[i].Polled?
  }

  /** The request stream is ended at most here. */
  predicate Ends(trace: seq<Event>) {
    exists i :: 0 <= i < |trace| && trace[i].EndStream?
  }

  /** How many frames, or ends of the body, were pulled. */
  function Pulls(trace: seq<Event>): nat {
    if trace == [] then 0 else if trace[0].Pulled? then 1 + Pulls(trace[1..]) else Pulls(trace[1..])
  }

  /** The polls of the receive among the events. */
  function PollsIn(trace: seq<Event>): seq<Event> {
    if trace == [] then []
    else if trace[0].Polled? then [trace[0]] + PollsIn(trace[1..])
    else PollsIn(trace[1..])
  }

  lemma {:induction false} PollsInAppend(a: seq<Event>, b: seq<Event>)
    ensures PollsIn(a + b) == PollsIn(a) + PollsIn(b) && Pulls(a + b) == Pulls(a) + Pulls(b)
  {
    if a == [] {
      assert a + b == b;
    } else {
      assert (a + b)[1..] == a[1..] + b;
      PollsInAppend(a[1..], b);
    }
  }

  lemma {:induction false} OnlyPollsIn(polls: seq<Event>)
    requires OnlyPolls(polls)
    ensures PollsIn(polls) == polls && Pulls(polls) == 0
  {
    if polls != [] {
      OnlyPollsIn(polls[1..]);
    }
  }

  lemma {:induction false} HeardAppends(a: seq<Event>, b: seq<Event>)
    ensures Heard(a + b) == Then(Heard(a), b)
  {
    if a == [] {
      assert a + b == b;
    } else {
      assert (a + b)[1..] == a[1..] + b;
      HeardAppends(a[1..], b);
    }
  }

  lemma {:induction false} OffersAppend(a: seq<Event>, b: seq<Event>)
    ensures Offers(a + b) == Offers(a) + Offers(b)
  {
    if a == [] {
      assert a + b == b;
    } else {
      assert (a + b)[1..] == a[1..] + b;
      OffersAppend(a[1..], b);
    }
  }

  lemma {:induction false} PollsOfferNothing(polls: seq<Event>)
    requires OnlyPolls(polls)
    ensures Offers(polls) == []
  {
    if polls != [] {
      PollsOfferNothing(polls[1..]);
    }
  }

  // ---------------------------------------------------------------- awaiting

  /** The polls of the receive that these ticks bring: none once the head is there. */
  function Polls(head: Option<bool>, ticks: seq<Tick>): seq<Event>
    decreases ticks
  {
    if ticks == [] || head.Some? then []
    else [Polled(ticks[0].receive)] + Polls(ticks[0].receive, ticks[1..])
  }

  /** The receive is polled at every tick up to `rest`, until the head is there. */
  ghost predicate Polling(trace: seq<Event>, head: Option<bool>, ticks: seq<Tick>, rest: seq<Tick>) {
    && |rest| <= |ticks| && rest == ticks[|ticks| - |rest|..]
    && PollsIn(trace) == Polls(head, ticks[..|ticks| - |rest|])
  }

  /** How many ticks pass before the operation is ready. */
  function Pending(ticks: seq<Tick>): (n: nat)
    ensures n <= |ticks|
  {
    if ticks == [] || !ticks[0].op.Unanswered? then 0 else 1 + Pending(ticks[1..])
  }

  /** The answer of an operation polled at these ticks; nothing if it is never polled. */
  function FirstAnswer(ticks: seq<Tick>): Option<Answer> {
    if ticks == [] then None
    else if Pending(ticks) < |ticks| then Some(ticks[Pending(ticks)].op)
    else Some(Unanswered)
  }

  /** The ticks after those an operation takes. */
  function AfterAnswer(ticks: seq<Tick>): seq<Tick> {
    ticks[Min(Pending(ticks) + 1, |ticks|)..]
  }

  /** The event is what these ticks make of it: a write has the first answer they bring, and a pull is ready. */
  predicate AnsweredBy(e: Event, ticks: seq<Tick>) {
    match e
    case Polled(_) => true
    case Pulled => Pending(ticks) < |ticks|
    case Write(offer) => FirstAnswer(ticks) == Some(offer.answer)
    case EndStream(answer) => FirstAnswer(ticks) == Some(answer)
  }

  /** Every write and every pull of the trace, in order, is answered by the ticks from its submission on. */
  predicate Replays(trace: seq<Event>, ticks: seq<Tick>) {
    trace == [] ||
    if trace[0].Polled? then Replays(trace[1..], ticks)
    else AnsweredBy(trace[0], ticks) && Replays(trace[1..], AfterAnswer(ticks))
  }

  /** The ticks that the writes and pulls of a trace leave. */
  function Left(trace: seq<Event>, ticks: seq<Tick>): (rest: seq<Tick>)
    ensures |rest| <= |ticks|
  {
    if trace == [] then ticks
    else Left(trace[1..], if trace[0].Polled? then ticks else AfterAnswer(ticks))
  }

  /** The trace is exactly what the ticks up to `rest` bring. */
  ghost predicate Scripted(trace: seq<Event>, head: Option<bool>, ticks: seq<Tick>, rest: seq<Tick>) {
    Polling(trace, head, ticks, rest) && Replays(trace, ticks) && rest == Left(trace, ticks)
  }

  /** The same for a trace that ends in a wait with nothing to show but polls. */
  ghost predicate Played(trace: seq<Event>, head: Option<bool>, ticks: seq<Tick>, rest: seq<Tick>) {
    Polling(trace, head, ticks, rest) && Replays(trace, ticks) && |rest| <= |Left(trace, ticks)|
  }

  /** The last wait was for a pull that was not ready at any of its ticks. */
  ghost predicate GaveUp(trace: seq<Event>, ticks: seq<Tick>, rest: seq<Tick>) {
    var left := Left(trace, ticks);
    forall i :: 0 <= i < |left| - |rest| ==> left[i].op.Unanswered?
  }

  lemma {:induction false} ReplaysJoin(a: seq<Event>, b: seq<Event>, ticks: seq<Tick>)
    ensures Left(a + b, ticks) == Left(b, Left(a, ticks))
    ensures Replays(a + b, ticks) <==> Replays(a, ticks) && Replays(b, Left(a, ticks))
    decreases |a|
  {
    if a == [] {
      assert a + b == b;
    } else {
      assert (a + b)[1..] == a[1..] + b;
      ReplaysJoin(a[1..], b, if a[0].Polled? then ticks else AfterAnswer(ticks));
    }
  }

  lemma {:induction false} PollsReplay(polls: seq<Event>, ticks: seq<Tick>)
    requires OnlyPolls(polls)
    ensures Replays(polls, ticks) && Left(polls, ticks) == ticks
  {
    if polls != [] {
      PollsReplay(polls[1..], ticks);
    }
  }

  lemma {:induction false} PollsJoinUp(head: Option<bool>, a: seq<Tick>, b: seq<Tick>)
    ensures Polls(head, a + b) == Polls(head, a) + Polls(Then(head, Polls(head, a)), b)
    decreases a
  {
    if a == [] {
      assert a + b == b;
    } else if head.None? {
      assert (a + b)[1..] == a[1..] + b;
      PollsJoinUp(a[0].receive, a[1..], b);
      HeardAppends([Polled(a[0].receive)], Polls(a[0].receive, a[1..]));
      assert [Polled(a[0].receive)][1..] == [];
    }
  }

  lemma {:induction false} HeardInPolls(trace: seq<Event>)
    ensures Heard(PollsIn(trace)) == Heard(trace)
  {
    if trace != [] {
      HeardInPolls(trace[1..]);
      if trace[0].Polled? {
        assert PollsIn(trace)[1..] == PollsIn(trace[1..]);
      }
    }
  }

  lemma ScriptsJoin(a: seq<Event>, b: seq<Event>, head: Option<bool>, t0: seq<Tick>, t1: seq<Tick>, t2: seq<Tick>)
    requires Scripted(a, head, t0, t1) && Scripted(b, Then(head, a), t1, t2)
    ensures Scripted(a + b, head, t0, t2)
  {
    hide Polling, Replays, Left;
    PollingJoins(a, b, head, t0, t1, t2);
    ReplaysJoin(a, b, t0);
  }

  /** Polls that answer nothing after anything. */
  lemma PlayOn(a: seq<Event>, polls: seq<Event>, head: Option<bool>, t0: seq<Tick>, t1: seq<Tick>, t2: seq<Tick>)
    requires Played(a, head, t0, t1) && OnlyPolls(polls) && Polling(polls, Then(head, a), t1, t2)
    ensures Played(a + polls, head, t0, t2) && Left(a + polls, t0) == Left(a, t0)
  {
    hide Replays, Left, OnlyPolls;
    assert |t2| <= |t1|;
    PollingJoins(a, polls, head, t0, t1, t2);
    ReplaysJoin(a, polls, t0);
    PollsReplay(polls, Left(a, t0));
  }

  lemma PollingJoins(a: seq<Event>, b: seq<Event>, head: Option<bool>, t0: seq<Tick>, t1: seq<Tick>, t2: seq<Tick>)
    requires Polling(a, head, t0, t1) && Polling(b, Then(head, a), t1, t2)
    ensures Polling(a + b, head, t0, t2)
  {
    hide Polls, PollsIn, Heard;
    var x, y := |t0| - |t1|, |t1| - |t2|;
    PollsInAppend(a, b);
    HeardInPolls(a);
    PollsJoinUp(head, t0[..x], t1[..y]);
    assert t0[..x] + t1[..y] == t0[..x + y];
    assert t0[x + y..] == t1[y..];
  }

  lemma ScriptStarts(head: Option<bool>, ticks: seq<Tick>)
    ensures Scripted([], head, ticks, ticks)
  {
    assert ticks[..0] == [];
  }

  lemma {:induction false} OneMoreTick(head: Option<bool>, ticks: seq<Tick>, tick: Tick)
    ensures var polls := Polls(head, ticks);
            && OnlyPolls(polls)
            && Polls(head, ticks + [tick]) == polls + if Then(head, polls).None? then [Polled(tick.receive)] else []
    decreases ticks
  {
    if ticks == [] {
      assert ticks + [tick] == [tick] && [tick][1..] == [];
    } else if head.None? {
      assert (ticks + [tick])[1..] == ticks[1..] + [tick];
      OneMoreTick(ticks[0].receive, ticks[1..], tick);
      HeardAppends([Polled(ticks[0].receive)], Polls(ticks[0].receive, ticks[1..]));
      assert [Polled(ticks[0].receive)][1..] == [];
    }
  }

  lemma {:induction false} NotReadyBefore(ticks: seq<Tick>, used: nat)
    requires used <= |ticks| && forall i :: 0 <= i < used ==> ticks[i].op.Unanswered?
    ensures used == |ticks| || !ticks[used].op.Unanswered? ==> Pending(ticks) == used
  {
    if used != 0 {
      NotReadyBefore(ticks[1..], used - 1);
    }
  }

  /** Poll a write to completion beside the receive.  It is submitted by its first poll, after the
      receive's; `None` means that poll never came. */
  method WithRecv(head: Option<bool>, ticks: seq<Tick>)
    returns (answer: Option<Answer>, now: Option<bool>, before: seq<Event>, after: seq<Event>, rest: seq<Tick>)
    ensures answer == FirstAnswer(ticks)
    ensures |rest| <= |ticks| && (ticks != [] ==> |rest| < |ticks|) && rest == ticks[|ticks| - |rest|..]
    ensures rest == AfterAnswer(ticks)
    ensures answer.None? || answer.value.Unanswered? ==> rest == []
    ensures answer.None? ==> now == head && ticks == rest == []
    ensures before + after == Polls(head, ticks[..|ticks| - |rest|])
    ensures ticks != [] ==> before == Polls(head, ticks[..1])
    ensures OnlyPolls(before) && OnlyPolls(after) && now == Then(head, before + after)
  {
    hide Polls, Heard, Pending, OnlyPolls;
    before, after, now, rest, answer := [], [], head, ticks, None;
    ghost var used := 0;
    ghost var polls: seq<Event> := [];
    NoTicks(head, ticks);
    while rest != [] && (answer.None? || answer.value.Unanswered?)
      invariant used + |rest| == |ticks| && rest == ticks[used..]
      invariant before + after == polls == Polls(head, ticks[..used]) && now == Then(head, polls)
      invariant OnlyPolls(before) && OnlyPolls(after) && (used == 0 ==> before == after == [])
      invariant used != 0 ==> before == Polls(head, ticks[..1])
      invariant answer.None? <==> used == 0
      invariant answer.Some? ==> answer.value == ticks[used - 1].op
      invariant forall i :: 0 <= i < used - 1 ==> ticks[i].op.Unanswered?
      decreases |rest|
    {
      var tick := rest[0];
      OneTick(head, ticks, used, polls);
      if now.None? {
        OnePollMore(before, after, Polled(tick.receive));
        if answer.None? {
          before := before + [Polled(tick.receive)];
        } else {
          after := after + [Polled(tick.receive)];
        }
        polls, now := polls + [Polled(tick.receive)], tick.receive;
      }
      answer, rest, used := Some(tick.op), rest[1..], used + 1;
    }
    if used != 0 {
      NotReadyBefore(ticks, if answer.value.Unanswered? then used else used - 1);
    }
  }

  lemma NoTicks(head: Option<bool>, ticks: seq<Tick>)
    ensures Polls(head, ticks[..0]) == [] && Then(head, []) == head && OnlyPolls([]) && Pending([]) == 0
  {
  }

  /** What one more tick adds to the polls. */
  lemma OneTick(head: Option<bool>, ticks: seq<Tick>, used: nat, polls: seq<Event>)
    requires used < |ticks| && polls == Polls(head, ticks[..used])
    ensures var more := polls + [Polled(ticks[used].receive)];
            && OnlyPolls(polls) && OnlyPolls(more)
            && (Then(head, polls).None? ==>
                  Polls(head, ticks[..used + 1]) == more && Then(head, more) == ticks[used].receive)
            && (Then(head, polls).Some? ==> Polls(head, ticks[..used + 1]) == polls)
  {
    var tick := ticks[used];
    OneMoreTick(head, ticks[..used], tick);
    assert ticks[..used + 1] == ticks[..used] + [tick];
    HeardAppends(polls, [Polled(tick.receive)]);
    assert [Polled(tick.receive)][1..] == [];
    assert Heard([Polled(tick.receive)]) == tick.receive && polls + [] == polls;
  }

  lemma OnePollMore(before: seq<Event>, after: seq<Event>, poll: Event)
    requires OnlyPolls(before) && OnlyPolls(after) && poll.Polled?
    ensures OnlyPolls(before + [poll]) && OnlyPolls(after + [poll])
    ensures before + (after + [poll]) == before + after + [poll]
    ensures after == [] ==> before + [poll] + after == before + after + [poll]
  {
    if after == [] {
      assert before + after == before && before + [poll] + after == before + [poll];
    }
  }

  /** Poll a pull of the next frame, but give it up once the head is there. */
  method UntilHead(ticks: seq<Tick>)
    returns (ready: bool, now: Option<bool>, polls: seq<Event>, rest: seq<Tick>)
    ensures |rest| <= |ticks| && rest == ticks[|ticks| - |rest|..]
    ensures polls == Polls(None, ticks[..|ticks| - |rest|]) && OnlyPolls(polls) && now == Heard(polls)
    ensures ready ==> polls != [] && Pending(ticks) == |ticks| - |rest| - 1
    ensures ready ==> rest == AfterAnswer(ticks)
    ensures !ready ==> now.Some? || rest == []
    ensures !ready ==> forall i :: 0 <= i < |ticks| - |rest| ==> ticks[i].op.Unanswered?
  {
    hide Polls, Heard, Pending, OnlyPolls;
    polls, now, rest, ready := [], None, ticks, false;
    ghost var used := 0;
    NoTicks(None, ticks);
    while rest != []
      invariant used + |rest| == |ticks| && rest == ticks[used..] && !ready
      invariant polls == Polls(None, ticks[..used]) && OnlyPolls(polls) && now == Heard(polls) == None
      invariant forall i :: 0 <= i < used ==> ticks[i].op.Unanswered?
      decreases |rest|
    {
      var tick := rest[0];
      OneTick(None, ticks, used, polls);
      polls, now, rest, used := polls + [Polled(tick.receive)], tick.receive, rest[1..], used + 1;
      if !tick.op.Unanswered? {
        NotReadyBefore(ticks, used - 1);
        return true, now, polls, rest;
      }
      if now.Some? {
        return false, now, polls, rest;
      }
    }
  }

  /** The first thing done, polls apart, is to submit this buffer. */
  ghost predicate Opens(trace: seq<Event>, buffer: Bytes) {
    exists k :: 0 <= k < |trace| && trace[k].Write? && trace[k].offer.bytes == buffer && OnlyPolls(trace[..k])
  }

  lemma OpensHere(before: seq<Event>, offer: Offer, after: seq<Event>)
    requires OnlyPolls(before)
    ensures Opens(before + [Write(offer)] + after, offer.bytes)
  {
    var trace := before + [Write(offer)] + after;
    assert trace[|before|].Write? && trace[..|before|] == before;
  }

  lemma OpensStill(a: seq<Event>, b: seq<Event>, buffer: Bytes)
    ensures Opens(a, buffer) ==> Opens(a + b, buffer)
    ensures a == [] && Opens(b, buffer) ==> Opens(a + b, buffer)
  {
    if Opens(a, buffer) {
      var k :| 0 <= k < |a| && a[k].Write? && a[k].offer.bytes == buffer && OnlyPolls(a[..k]);
      assert (a + b)[k] == a[k] && (a + b)[..k] == a[..k];
    }
    if a == [] {
      assert a + b == b;
    }
  }

  lemma {:induction false} OneWrite(before: seq<Event>, offer: Offer, after: seq<Event>)
    requires OnlyPolls(before) && OnlyPolls(after)
    ensures var trace := before + [Write(offer)] + after;
            && Offers(trace) == [offer] && NoneAbandoned(trace) && Heard(trace) == Heard(before + after)
            && (!offer.answer.Unanswered? ==> Settled(trace)) && !Ends(trace)
  {
    var w := [Write(offer)];
    assert w[1..] == [] && Heard(w) == None;
    PollsOfferNothing(before);
    PollsOfferNothing(after);
    OffersAppend(before + w, after);
    OffersAppend(before, w);
    HeardAppends(before + w, after);
    HeardAppends(before, w);
    HeardAppends(before, after);
  }

  lemma {:induction false} PollsAround(before: seq<Event>, e: Event, after: seq<Event>)
    requires OnlyPolls(before) && OnlyPolls(after) && !e.Polled? && !e.Pulled?
    ensures PollsIn(before + [e] + after) == before + after && Pulls(before + [e] + after) == 0
  {
    assert [e][0] == e && [e][1..] == [];
    assert Pulls([e][1..]) == 0;
    assert Pulls([e]) == Pulls([e][1..]);
    assert PollsIn([e]) == [];
    PollsInAppend(before + [e], after);
    PollsInAppend(before, [e]);
    OnlyPollsIn(before);
    OnlyPollsIn(after);
  }

  /** Events that leave nothing in flight can be followed by others. */
  lemma TracesJoin(a: seq<Event>, b: seq<Event>)
    requires Settled(a) && NoneAbandoned(b)
    ensures NoneAbandoned(a + b) && (Settled(b) ==> Settled(a + b))
    ensures Heard(a + b) == Then(Heard(a), b) && Offers(a + b) == Offers(a) + Offers(b)
    ensures (Ends(a + b) <==> Ends(a) || Ends(b)) && Pulls(a + b) == Pulls(a) + Pulls(b)
  {
    HeardAppends(a, b);
    PollsInAppend(a, b);
    OffersAppend(a, b);
    assert forall i :: 0 <= i < |a| ==> (a + b)[i] == a[i];
    assert forall i :: 0 <= i < |b| ==> (a + b)[|a| + i] == b[i];
    forall i, j | 0 <= i < j < |a + b| && InFlight((a + b)[i])
      ensures (a + b)[j].Polled?
    {
      assert (a + b)[i] == b[i - |a|] && (a + b)[j] == b[j - |a|];
    }
  }

  // ---------------------------------------------------------------- writing

  /** Write a whole buffer beside the receive.  A failure after the head has come ends the writing
      without an error. */
  method WriteAllWithRecv(buffer: Bytes, head: Option<bool>, ticks: seq<Tick>)
    returns (r: Status, now: Option<bool>, trace: seq<Event>, rest: seq<Tick>)
    ensures InOrder(Offers(trace), buffer, 0) && Taken(Offers(trace)) <= buffer && !Ends(trace)
    ensures r.Done? ==> Taken(Offers(trace)) == buffer || now.Some?
    ensures r.Broken? ==> now.None?
    ensures r.Broken? || r.Stalled? ==> Refused(trace)
    ensures now == Then(head, trace) && NoneAbandoned(trace)
    ensures !r.Waiting? ==> Settled(trace)
    ensures !r.Waiting? && buffer != [] ==> Opens(trace, buffer)
    ensures Scripted(trace, head, ticks, rest) && (r.Waiting? ==> rest == []) && Pulls(trace) == 0
  {
    hide InOrder, Taken, Offers, Heard, Settled, NoneAbandoned, Ends, OnlyPolls, Opens, Scripted, Polls,
      Pulls, PollsIn, Refused, FirstAnswer, AfterAnswer, Pending;
    var pending := buffer;
    trace, rest, now := [], ticks, head;
    NothingHappened(buffer);
    ScriptStarts(head, ticks);
    while pending != []
      invariant InOrder(Offers(trace), buffer, 0) && buffer == Taken(Offers(trace)) + pending && !Ends(trace)
      invariant now == Then(head, trace) && Settled(trace)
      invariant pending != buffer ==> Opens(trace, buffer)
      invariant pending == buffer ==> trace == []
      invariant pending == [] ==> buffer == []
      invariant Scripted(trace, head, ticks, rest) && Pulls(trace) == 0
      decreases |pending|
    {
      var answer, before, after;
      ghost var start := rest;
      answer, now, before, after, rest := WithRecv(now, rest);
      if answer.None? {
        SettledIsFine(trace);
        return Waiting, now, trace, rest;
      }
      var offer := Offer(pending, answer.value);
      ghost var was := Taken(Offers(trace));
      var segment := before + [Write(offer)] + after;
      OneMoreWrite(trace, before, offer, after, segment, buffer, head, ticks, start, rest);
      trace := trace + segment;
      if answer.value.Unanswered? {
        return Waiting, now, trace, rest;
      }
      if answer.value.Failed? {
        return if now.Some? then Done else Broken, now, trace, rest;
      }
      if answer.value.n >= |pending| {
        return Done, now, trace, rest;
      }
      if answer.value.n == 0 {
        return Stalled(|pending|), now, trace, rest;
      }
      Rest(was, pending, answer.value.n);
      pending := pending[answer.value.n..];
    }
    r := Done;
    SettledIsFine(trace);
  }

  /** One more write at the place the trace has reached. */
  lemma OneMoreWrite(trace: seq<Event>, before: seq<Event>, offer: Offer, after: seq<Event>, segment: seq<Event>,
                     buffer: Bytes, head: Option<bool>, ticks: seq<Tick>, start: seq<Tick>, rest: seq<Tick>)
    requires InOrder(Offers(trace), buffer, 0) && buffer == Taken(Offers(trace)) + offer.bytes && offer.bytes != []
    requires !Ends(trace) && Settled(trace) && Pulls(trace) == 0 && Scripted(trace, head, ticks, start)
    requires if offer.bytes == buffer then trace == [] else Opens(trace, buffer)
    requires segment == before + [Write(offer)] + after && OnlyPolls(before) && OnlyPolls(after)
    requires |rest| <= |start| && rest == start[|start| - |rest|..] && rest == AfterAnswer(start)
    requires before + after == Polls(Then(head, trace), start[..|start| - |rest|])
    requires FirstAnswer(start) == Some(offer.answer)
    ensures var t := trace + segment;
            && InOrder(Offers(t), buffer, 0) && Taken(Offers(t)) == Taken(Offers(trace)) + Took(offer)
            && !Ends(t) && NoneAbandoned(t) && (!offer.answer.Unanswered? ==> Settled(t)) && Opens(t, buffer)
            && Scripted(t, head, ticks, rest) && Pulls(t) == 0 && (Refuses(Write(offer)) ==> Refused(t))
            && Then(head, t) == Then(Then(head, trace), before + after)
  {
    hide InOrder, Taken, Took, Offers, Heard, Settled, NoneAbandoned, Ends, OnlyPolls, Opens, Scripted, Polls, Pulls,
      PollsIn, Refused, Refuses, FirstAnswer, AfterAnswer, Pending;
    OneWrite(before, offer, after);
    TracesJoin(trace, segment);
    IsScripted(before, Write(offer), after, Then(head, trace), start, rest);
    ScriptsJoin(trace, segment, head, ticks, start, rest);
    OpensHere(before, offer, after);
    OpensStill(trace, segment, buffer);
    Transmit.Offered(Offers(trace), offer, buffer);
    if Refuses(Write(offer)) {
      RefusedHere(before, Write(offer), after);
      RefusedJoins(trace, segment);
    }
  }

  lemma IsScripted(before: seq<Event>, e: Event, after: seq<Event>, head: Option<bool>, ticks: seq<Tick>,
                   rest: seq<Tick>)
    requires OnlyPolls(before) && OnlyPolls(after) && !e.Polled? && !e.Pulled?
    requires |rest| <= |ticks| && rest == ticks[|ticks| - |rest|..]
    requires before + after == Polls(head, ticks[..|ticks| - |rest|])
    requires AnsweredBy(e, ticks) && rest == AfterAnswer(ticks)
    ensures Scripted(before + [e] + after, head, ticks, rest) && Pulls(before + [e] + after) == 0
  {
    hide Polls, PollsIn, OnlyPolls, FirstAnswer, Pulls;
    PollsAround(before, e, after);
    assert before + [e] + after == before + ([e] + after) && ([e] + after)[1..] == after;
    PollsReplay(before, ticks);
    ReplaysJoin(before, [e] + after, ticks);
    PollsReplay(after, rest);
  }

  lemma NothingHappened(wire: Bytes)
    ensures Pulls([]) == 0 && Offers([]) == [] && Heard([]) == None && Settled([]) && NoneAbandoned([]) && !Ends([])
    ensures InOrder([], wire, 0) && Taken([]) == []
  {
  }

  lemma SettledIsFine(trace: seq<Event>)
    requires Settled(trace)
    ensures NoneAbandoned(trace)
  {
  }

  lemma NextPart(log: seq<Offer>, more: seq<Offer>, done: seq<Bytes>, next: seq<Bytes>, all: seq<Bytes>,
                 coding: Framing, tail: Bytes)
    requires done + next <= all
    requires InOrder(log, FramedPieces(all, coding) + tail, 0) && Taken(log) == FramedPieces(done, coding)
    requires InOrder(more, FramedPieces(next, coding), 0)
    ensures var wire := FramedPieces(all, coding) + tail;
            InOrder(log + more, wire, 0) && Taken(log + more) == Taken(log) + Taken(more) <= wire
    ensures FramedPieces(done + next, coding) == FramedPieces(done, coding) + FramedPieces(next, coding)
  {
    hide FramedPieces, InOrder, Taken, IsAt;
    SlicesAreAt(done, next, all, coding, tail);
    LogsJoin(log, more, FramedPieces(next, coding), FramedPieces(all, coding) + tail);
  }

  /** One data frame beside the receive: what is left of it when the head comes is dropped. */
  method DriveFrame(data: Bytes, framing: H2Framing, head: Option<bool>, ticks: seq<Tick>)
    returns (r: Status, now: Option<bool>, trace: seq<Event>, rest: seq<Tick>)
    ensures var part := FramedPieces(Slices(data), Coding(framing));
            && InOrder(Offers(trace), part, 0) && Taken(Offers(trace)) <= part
            && (r.Done? && now.None? ==> Taken(Offers(trace)) == part)
    ensures r.Broken? ==> now.None?
    ensures r.Broken? || r.Stalled? ==> Refused(trace)
    ensures now == Then(head, trace) && NoneAbandoned(trace) && !Ends(trace)
    ensures head.Some? ==> r.Done? && trace == []
    ensures !r.Waiting? ==> Settled(trace)
    ensures Scripted(trace, head, ticks, rest) && (r.Waiting? ==> rest == []) && Pulls(trace) == 0
  {
    hide InOrder, Taken, Offers, Heard, Settled, NoneAbandoned, Ends, Opens, FramedPieces, Slices, Scripted, Pulls,
      Refused;
    ScriptStarts(head, ticks);
    var coding := Coding(framing);
    ghost var all := Slices(data);
    ghost var part := FramedPieces(all, coding);
    assert part + [] == part;
    NothingHappened(part);
    OneFramed([], coding);
    var left := data;
    ghost var done: seq<Bytes> := [];
    r, now, trace, rest := Done, head, [], ticks;
    while left != [] && now.None?
      invariant InOrder(Offers(trace), part, 0) && Taken(Offers(trace)) <= part && r.Done?
      invariant done + Slices(left) == all
      invariant now.None? ==> Taken(Offers(trace)) == FramedPieces(done, coding)
      invariant now == Then(head, trace) && Settled(trace) && !Ends(trace)
      invariant head.Some? ==> trace == []
      invariant Scripted(trace, head, ticks, rest) && Pulls(trace) == 0
      decreases |left|
    {
      var take := if |left| < MAX_WRITE then |left| else MAX_WRITE;
      var piece := left[..take];
      FirstSlice(left);
      OneFramed(piece, coding);
      var more;
      ghost var start := rest;
      r, now, more, rest := WriteAllWithRecv(Framed(piece, coding), now, rest);
      ScriptsJoin(trace, more, head, ticks, start, rest);
      RefusedJoins(trace, more);
      NextPart(Offers(trace), Offers(more), done, [piece], all, coding, []);
      TracesJoin(trace, more);
      trace := trace + more;
      if !r.Done? {
        return;
      }
      done, left := done + [piece], left[take..];
    }
    SettledIsFine(trace);
    if now.None? {
      NothingYet(coding, part, []);
      assert done == all;
    }
  }

  /** The closing write was submitted once all the data had been taken. */
  ghost predicate Completed(trace: seq<Event>, frames: seq<Frame>, framing: H2Framing) {
    exists n :: && 0 <= n <= |trace| && Taken(Offers(trace[..n])) == Payload(frames, framing)
                && ClosingOpens(trace[n..], framing)
  }

  ghost predicate ClosingOpens(trace: seq<Event>, framing: H2Framing) {
    match framing
    case Exactly(_) => true
    case ManualChunked => Opens(trace, LAST_CHUNK)
    case Automatic => exists k :: 0 <= k < |trace| && trace[k].EndStream? && OnlyPolls(trace[..k])
  }

  /** The empty write that ends the request stream, submitted whatever becomes of it. */
  method EndStreamWithRecv(head: Option<bool>, ticks: seq<Tick>)
    returns (r: Status, now: Option<bool>, trace: seq<Event>, rest: seq<Tick>)
    ensures now == Then(head, trace) && NoneAbandoned(trace) && Offers(trace) == []
    ensures !r.Waiting? ==> Settled(trace) && ClosingOpens(trace, Automatic)
    ensures r.Broken? ==> now.None? && Refused(trace)
    ensures !r.Stalled?
    ensures Scripted(trace, head, ticks, rest) && (r.Waiting? ==> rest == []) && Pulls(trace) == 0
  {
    hide Polls, PollsIn, Pulls, Heard, Offers, ClosingOpens, Settled, NoneAbandoned, Scripted, OnlyPolls;
    ScriptStarts(head, ticks);
    NothingHappened([]);
    var answer, before, after;
    answer, now, before, after, rest := WithRecv(head, ticks);
    if answer.None? {
      assert rest == ticks;
      return Waiting, now, [], rest;
    }
    var e := EndStream(answer.value);
    OneEnd(before, e, after);
    IsScripted(before, e, after, head, ticks, rest);
    trace := before + [e] + after;
    if answer.value.Failed? {
      RefusedHere(before, e, after);
    }
    r := if answer.value.Unanswered? then Waiting
         else if answer.value.Failed? && now.None? then Broken
         else Done;
  }

  lemma OneEnd(before: seq<Event>, e: Event, after: seq<Event>)
    requires OnlyPolls(before) && OnlyPolls(after) && e.EndStream?
    ensures var trace := before + [e] + after;
            && Offers(trace) == [] && NoneAbandoned(trace) && Heard(trace) == Heard(before + after)
            && (!e.answer.Unanswered? ==> Settled(trace))
            && ClosingOpens(trace, Automatic)
  {
    var trace := before + [e] + after;
    assert trace[|before|] == e && trace[..|before|] == before;
    assert [e][1..] == [] && Heard([e]) == None;
    PollsOfferNothing(before);
    PollsOfferNothing(after);
    OffersAppend(before + [e], after);
    OffersAppend(before, [e]);
    HeardAppends(before + [e], after);
    HeardAppends(before, [e]);
    HeardAppends(before, after);
  }

  /** Close the request stream the way the framing does. */
  method Close(framing: H2Framing, head: Option<bool>, ticks: seq<Tick>)
    returns (r: Status, now: Option<bool>, trace: seq<Event>, rest: seq<Tick>)
    ensures now == Then(head, trace) && NoneAbandoned(trace)
    ensures var tail := Terminator(Coding(framing));
            && InOrder(Offers(trace), tail, 0) && Taken(Offers(trace)) <= tail
            && (r.Done? ==> Taken(Offers(trace)) == tail || now.Some?)
    ensures Ends(trace) ==> framing.Automatic?
    ensures !r.Waiting? ==> Settled(trace) && ClosingOpens(trace, framing)
    ensures r.Broken? ==> now.None?
    ensures r.Broken? || r.Stalled? ==> Refused(trace)
    ensures Scripted(trace, head, ticks, rest) && (r.Waiting? ==> rest == []) && Pulls(trace) == 0
  {
    ScriptStarts(head, ticks);
    NothingHappened(Terminator(Coding(framing)));
    match framing
    case Exactly(_) => r, now, trace, rest := Done, head, [], ticks;
    case ManualChunked => r, now, trace, rest := WriteAllWithRecv(LAST_CHUNK, head, ticks);
    case Automatic => r, now, trace, rest := EndStreamWithRecv(head, ticks);
  }

  /** Wait for the head alone. */
  method AwaitHead(ticks: seq<Tick>) returns (now: Option<bool>, polls: seq<Event>, rest: seq<Tick>)
    ensures OnlyPolls(polls) && now == Heard(polls)
    ensures Polling(polls, None, ticks, rest) && (now.None? ==> rest == [])
  {
    hide Polls, Heard, OnlyPolls, PollsIn;
    now, polls, rest := None, [], ticks;
    ghost var used := 0;
    NoTicks(None, ticks);
    while rest != []
      invariant used + |rest| == |ticks| && rest == ticks[used..]
      invariant polls == Polls(None, ticks[..used]) && OnlyPolls(polls) && now == Heard(polls) == None
      decreases |rest|
    {
      var tick := rest[0];
      OneTick(None, ticks, used, polls);
      polls, now, rest, used := polls + [Polled(tick.receive)], tick.receive, rest[1..], used + 1;
      OnlyPollsIn(polls);
      if now.Some? {
        return;
      }
    }
    OnlyPollsIn(polls);
  }

  lemma PollsJoin(trace: seq<Event>, polls: seq<Event>)
    requires Settled(trace) && OnlyPolls(polls)
    ensures Settled(trace + polls) && NoneAbandoned(trace + polls) && (Ends(trace + polls) <==> Ends(trace))
    ensures Heard(trace + polls) == Then(Heard(trace), polls) && Offers(trace + polls) == Offers(trace)
    ensures ReceiveFirst(trace) ==> ReceiveFirst(trace + polls)
    ensures Pulls(trace + polls) == Pulls(trace)
  {
    OnlyPollsIn(polls);
    PollsOfferNothing(polls);
    TracesJoin(trace, polls);
  }

  lemma PullJoins(trace: seq<Event>)
    requires Settled(trace) && trace != []
    ensures Settled(trace + [Pulled]) && (Ends(trace + [Pulled]) <==> Ends(trace))
    ensures Heard(trace + [Pulled]) == Heard(trace) && Offers(trace + [Pulled]) == Offers(trace)
    ensures ReceiveFirst(trace) ==> ReceiveFirst(trace + [Pulled])
    ensures Pulls(trace + [Pulled]) == Pulls(trace) + 1
  {
    assert [Pulled][1..] == [] && Heard([Pulled]) == None && Offers([Pulled]) == [] && Pulls([Pulled]) == 1;
    TracesJoin(trace, [Pulled]);
  }

  lemma CompletedBy(data: seq<Event>, closing: seq<Event>, polls: seq<Event>, frames: seq<Frame>, framing: H2Framing)
    requires Taken(Offers(data)) == Payload(frames, framing) && ClosingOpens(closing, framing)
    ensures Completed(data + closing + polls, frames, framing)
  {
    hide Taken, Offers, Payload, OnlyPolls;
    var trace := data + closing + polls;
    assert trace[..|data|] == data && trace[|data|..] == closing + polls;
    if framing.ManualChunked? {
      OpensStill(closing, polls, LAST_CHUNK);
    } else if framing.Automatic? {
      var k :| 0 <= k < |closing| && closing[k].EndStream? && OnlyPolls(closing[..k]);
      assert (closing + polls)[k] == closing[k] && (closing + polls)[..k] == closing[..k];
    }
    assert ClosingOpens(trace[|data|..], framing);
  }

  lemma TailIsAt(frames: seq<Frame>, framing: H2Framing, log: seq<Offer>, more: seq<Offer>)
    requires InOrder(log, Closed(frames, framing), 0) && Taken(log) == Payload(frames, framing)
    requires InOrder(more, Terminator(Coding(framing)), 0)
    ensures InOrder(log + more, Closed(frames, framing), 0)
    ensures Taken(log + more) == Taken(log) + Taken(more) <= Closed(frames, framing)
  {
    hide InOrder, Taken, Payload, Terminator;
    LogsJoin(log, more, Terminator(Coding(framing)), Closed(frames, framing));
  }

  // ---------------------------------------------------------------- the head phase

  /** Every pull is awaited beside an outstanding receive: none is started once the head is there. */
  ghost predicate Awaited(trace: seq<Event>) {
    forall i :: 0 <= i < |trace| && trace[i].Pulled? ==> i > 0 && trace[i - 1].Polled?
  }

  lemma {:induction false} NoPulls(trace: seq<Event>, i: nat)
    requires Pulls(trace) == 0 && i < |trace|
    ensures !trace[i].Pulled?
  {
    if i > 0 {
      NoPulls(trace[1..], i - 1);
    }
  }

  lemma AwaitedJoins(a: seq<Event>, b: seq<Event>)
    requires Awaited(a) && Pulls(b) == 0
    ensures Awaited(a + b)
  {
    hide Pulls;
    forall i | 0 <= i < |a + b| && (a + b)[i].Pulled?
      ensures i > 0 && (a + b)[i - 1].Polled?
    {
      if i >= |a| {
        NoPulls(b, i - |a|);
      } else {
        assert (a + b)[i] == a[i];
      }
    }
  }

  lemma AwaitedPull(a: seq<Event>)
    requires Awaited(a) && a != [] && a[|a| - 1].Polled?
    ensures Awaited(a + [Pulled])
  {
  }

  /** What holds of every run, however it ends: writes in order, after the receive, none abandoned, and the
      stream ended only over a whole body. */
  ghost predicate Sound(trace: seq<Event>, frames: seq<Frame>, framing: H2Framing) {
    && InOrder(Offers(trace), Closed(frames, framing), 0) && Taken(Offers(trace)) <= Closed(frames, framing)
    && ReceiveFirst(trace) && NoneAbandoned(trace) && Awaited(trace)
    && (Ends(trace) ==> framing.Automatic? && Taken(Offers(trace)) == Payload(frames, framing))
  }

  /** Between frames: nothing is in flight, and `done` is all that was written. */
  ghost predicate Between(trace: seq<Event>, frames: seq<Frame>, framing: H2Framing, body: seq<Frame>,
                          done: seq<Bytes>)
  {
    && Sound(trace, frames, framing) && Settled(trace) && !Ends(trace)
    && Taken(Offers(trace)) == FramedPieces(done, Coding(framing))
    && done + Cut(Pieces(body)) == Cut(Pieces(frames)) && Failure(body) == Failure(frames)
    && IsRest(frames, body, done)
  }

  predicate NoFault(frames: seq<Frame>) {
    forall i :: 0 <= i < |frames| ==> !frames[i].Fault?
  }

  /** `body` is what is left of the frames after those that make up `done`. */
  ghost predicate IsRest(frames: seq<Frame>, body: seq<Frame>, done: seq<Bytes>) {
    var k := |frames| - |body|;
    k >= 0 && body == frames[k..] && NoFault(frames[..k]) && done == Cut(Pieces(frames[..k]))
  }

  lemma {:induction false} PiecesTogether(a: seq<Frame>, b: seq<Frame>)
    requires NoFault(a)
    ensures Pieces(a + b) == Pieces(a) + Pieces(b)
  {
    if a == [] {
      assert a + b == b;
    } else {
      assert (a + b)[1..] == a[1..] + b;
      PiecesTogether(a[1..], b);
    }
  }

  lemma {:induction false} CutTogether(a: seq<Bytes>, b: seq<Bytes>)
    ensures Cut(a + b) == Cut(a) + Cut(b)
  {
    if a == [] {
      assert a + b == b;
    } else {
      assert (a + b)[1..] == a[1..] + b;
      CutTogether(a[1..], b);
    }
  }

  /** One frame more: its slices if it is data. */
  lemma RestShrinks(frames: seq<Frame>, body: seq<Frame>, done: seq<Bytes>)
    requires IsRest(frames, body, done) && body != []
    ensures var k := |frames| - |body|;
            && frames[k] == body[0] && frames[..k + 1] == frames[..k] + [body[0]]
            && Cut(Pieces(frames[..k + 1])) == done + if body[0].Data? then Slices(body[0].bytes) else []
    ensures !body[0].Fault? ==> IsRest(frames, body[1..], done + if body[0].Data? then Slices(body[0].bytes) else [])
  {
    hide Cut, Pieces, Slices;
    var k := |frames| - |body|;
    assert frames[..k + 1] == frames[..k] + [body[0]];
    PiecesTogether(frames[..k], [body[0]]);
    CutTogether(Pieces(frames[..k]), Pieces([body[0]]));
    OneFrame(body[0]);
    assert body[1..] == frames[k + 1..];
  }

  lemma OneFrame(f: Frame)
    ensures Cut(Pieces([f])) == if f.Data? then Slices(f.bytes) else []
  {
    assert [f][1..] == [];
    if f.Data? && f.bytes != [] {
      assert Pieces([f]) == [f.bytes] && [f.bytes][1..] == [];
    }
  }

  /** What was taken, against what was pulled: all the frames before the last one pulled, and nothing of those after
      it.  Past the end of the body, all of it. */
  ghost predicate KeepsUp(trace: seq<Event>, frames: seq<Frame>, framing: H2Framing) {
    var k, taken := Pulls(trace), Taken(Offers(trace));
    if k > |frames| then Payload(frames, framing) <= taken
    else
      && (k > 0 ==> Payload(frames[..k - 1], framing) <= taken)
      && taken <= Payload(frames[..k], framing)
  }

  /** Between frames, before and after the next pull. */
  lemma BetweenKeepsUp(trace: seq<Event>, frames: seq<Frame>, framing: H2Framing, body: seq<Frame>, done: seq<Bytes>)
    requires Between(trace, frames, framing, body, done)
    requires Pulls(trace) + |body| == |frames| || Pulls(trace) + |body| == |frames| + 1
    ensures KeepsUp(trace, frames, framing)
    ensures body != [] && body[0].Fault? ==>
              Taken(Offers(trace)) == Payload(frames, framing) && frames[|frames| - |body|] == body[0]
  {
    hide Pulls, Taken, Offers, FramedPieces, Cut, Pieces, Failure, Sound, Settled, Ends;
    var k := |frames| - |body|;
    assert Taken(Offers(trace)) == Payload(frames[..k], framing);
    if k > 0 {
      PayloadGrows(frames, k - 1, framing);
    }
    if body != [] {
      PayloadGrows(frames, k, framing);
      if body[0].Fault? {
        FirstFrame(body);
        assert done == Cut(Pieces(frames));
      }
    } else {
      assert frames[..k] == frames;
    }
  }

  lemma PayloadGrows(frames: seq<Frame>, k: nat, framing: H2Framing)
    requires k < |frames| && NoFault(frames[..k])
    ensures Payload(frames[..k + 1], framing) == Payload(frames[..k], framing)
            + if frames[k].Data? then FramedPieces(Slices(frames[k].bytes), Coding(framing)) else []
  {
    hide FramedPieces, Cut, Pieces, Slices;
    RestShrinks(frames, frames[k..], Cut(Pieces(frames[..k])));
    if frames[k].Data? {
      FramedTogether(Cut(Pieces(frames[..k])), Slices(frames[k].bytes), Coding(framing));
    } else {
      assert Cut(Pieces(frames[..k])) + [] == Cut(Pieces(frames[..k]));
      assert Payload(frames[..k], framing) + [] == Payload(frames[..k], framing);
    }
  }

  lemma AtStart(frames: seq<Frame>, framing: H2Framing)
    ensures Between([], frames, framing, frames, []) && Heard([]).None? && Pulls([]) == 0
  {
    NothingHappened(Closed(frames, framing));
    OneFramed([], Coding(framing));
    assert frames[0..] == frames && frames[..0] == [];
  }

  lemma AfterPolls(trace: seq<Event>, polls: seq<Event>, frames: seq<Frame>, framing: H2Framing, body: seq<Frame>,
                   done: seq<Bytes>)
    requires Between(trace, frames, framing, body, done) && OnlyPolls(polls)
    ensures Between(trace + polls, frames, framing, body, done)
    ensures Heard(trace + polls) == Then(Heard(trace), polls)
    ensures Pulls(trace + polls) == Pulls(trace)
    ensures var t := trace + polls + [Pulled];
            polls != [] ==> && Between(t, frames, framing, body, done) && Heard(t) == Then(Heard(trace), polls)
                            && Pulls(t) == Pulls(trace) + 1
  {
    hide Pulls, InOrder, Taken, Offers, Heard, Settled, Ends, FramedPieces, Pieces, Failure, Cut,
      NoneAbandoned, Awaited, IsRest;
    PollsJoin(trace, polls);
    OnlyPollsIn(polls);
    AwaitedJoins(trace, polls);
    if polls != [] {
      AwaitedPull(trace + polls);
      PullJoins(trace + polls);
      SettledIsFine(trace + polls + [Pulled]);
    }
  }

  lemma Regroup(done: seq<Bytes>, next: seq<Bytes>, rest: seq<Bytes>, all: seq<Bytes>)
    requires done + (next + rest) == all
    ensures done + next + rest == all && done + next <= all
  {
  }

  lemma AfterFrame(trace: seq<Event>, more: seq<Event>, frames: seq<Frame>, framing: H2Framing, body: seq<Frame>,
                   done: seq<Bytes>)
    requires Between(trace, frames, framing, body, done) && trace != [] && body != [] && body[0].Data?
    requires NoneAbandoned(more) && !Ends(more) && Pulls(more) == 0
    requires var part := FramedPieces(Slices(body[0].bytes), Coding(framing));
             InOrder(Offers(more), part, 0) && Taken(Offers(more)) <= part
    ensures Sound(trace + more, frames, framing) && Heard(trace + more) == Then(Heard(trace), more)
    ensures Settled(more) && Taken(Offers(more)) == FramedPieces(Slices(body[0].bytes), Coding(framing)) ==>
              Between(trace + more, frames, framing, body[1..], done + Slices(body[0].bytes))
    ensures Settled(more) ==> Settled(trace + more) && !Ends(trace + more)
    ensures Pulls(trace + more) == Pulls(trace)
    ensures Taken(Offers(trace + more)) == Taken(Offers(trace)) + Taken(Offers(more))
  {
    hide Pulls, InOrder, Taken, Offers, Heard, Settled, Ends, FramedPieces, Pieces, Failure, Cut, Slices,
      NoneAbandoned, Flatten, Terminator, Awaited, IsRest;
    FirstFrame(body);
    RestShrinks(frames, body, done);
    AwaitedJoins(trace, more);
    var all, slices := Cut(Pieces(frames)), Slices(body[0].bytes);
    Regroup(done, slices, Cut(Pieces(body[1..])), all);
    TracesJoin(trace, more);
    NextPart(Offers(trace), Offers(more), done, slices, all, Coding(framing), Terminator(Coding(framing)));
  }

  lemma AfterClose(trace: seq<Event>, more: seq<Event>, frames: seq<Frame>, framing: H2Framing, done: seq<Bytes>)
    requires Between(trace, frames, framing, [], done) && trace != []
    requires NoneAbandoned(more) && (Ends(more) ==> framing.Automatic?) && Pulls(more) == 0
    requires var tail := Terminator(Coding(framing)); InOrder(Offers(more), tail, 0) && Taken(Offers(more)) <= tail
    ensures Sound(trace + more, frames, framing) && Heard(trace + more) == Then(Heard(trace), more)
    ensures Failure(frames).None? && Taken(Offers(trace)) == Payload(frames, framing)
    ensures Settled(more) ==> Settled(trace + more)
    ensures Pulls(trace + more) == Pulls(trace) && Payload(frames, framing) <= Taken(Offers(trace + more))
  {
    hide Pulls, InOrder, Taken, Offers, Heard, Settled, Ends, FramedPieces, Pieces, Failure, Cut, NoneAbandoned,
      Awaited, IsRest;
    NoFrames();
    AwaitedJoins(trace, more);
    assert done == Cut(Pieces(frames));
    TracesJoin(trace, more);
    TailIsAt(frames, framing, Offers(trace), Offers(more));
  }

  /** Wait for the head if it is not there yet, and say whether the whole body went out. */
  method Finish(body: seq<Event>, closing: seq<Event>, head: Option<bool>, writeDone: bool, ticks: seq<Tick>,
                ghost frames: seq<Frame>, ghost framing: H2Framing, ghost script: seq<Tick>)
    returns (r: Driven, trace: seq<Event>, rest: seq<Tick>)
    requires Played(body + closing, None, script, ticks) && (!writeDone ==> GaveUp(body + closing, script, ticks))
    requires Sound(body + closing, frames, framing) && Settled(body + closing) && head == Heard(body + closing)
    requires writeDone ==> Taken(Offers(body)) == Payload(frames, framing) && ClosingOpens(closing, framing)
    requires !writeDone ==> head.Some?
    ensures Sound(trace, frames, framing) && Settled(trace)
    ensures r.Head? ==> Heard(trace) == Some(true) && r.done == writeDone
    ensures r == Head(true) ==> Completed(trace, frames, framing)
    ensures r.NoHead? ==> Heard(trace) == Some(false)
    ensures !r.WriteFailed? && !r.SourceFailed?
    ensures Played(trace, None, script, rest) && (r.Suspended? ==> rest == [])
    ensures r == Head(false) ==> GaveUp(trace, script, rest)
    ensures Pulls(trace) == Pulls(body + closing) && Offers(trace) == Offers(body + closing)
  {
    hide Awaited, Polling, Played, GaveUp, Pulls, InOrder, Taken, Offers, Heard, Settled, Ends, Completed, ClosingOpens,
      OnlyPolls, NoneAbandoned, Payload, Closed;
    var now, polls := head, [];
    rest := ticks;
    NothingHappened([]);
    NoPolls();
    NoPolling(head, ticks);
    assert body + closing + [] == body + closing;
    if now.None? {
      now, polls, rest := AwaitHead(ticks);
    }
    PlayOn(body + closing, polls, None, script, ticks, rest);
    PollsJoin(body + closing, polls);
    OnlyPollsIn(polls);
    AwaitedJoins(body + closing, polls);
    if writeDone {
      CompletedBy(body, closing, polls, frames, framing);
    }
    trace := body + closing + polls;
    r := if now.None? then Suspended else if now.value then Head(writeDone) else NoHead;
  }

  lemma NoPolls()
    ensures OnlyPolls([])
  {
  }

  /** Write the body until it is over or the head arrives, then wait for the head. */
  method DriveHead(frames: seq<Frame>, framing: H2Framing, ticks: seq<Tick>)
    returns (r: Driven, trace: seq<Event>, rest: seq<Tick>)
    ensures Sound(trace, frames, framing) && (!r.Suspended? ==> Settled(trace))
    ensures Played(trace, None, ticks, rest) && (r.Suspended? ==> rest == [])
    // A pull is given up only when it is not ready.
    ensures r == Head(false) ==> GaveUp(trace, ticks, rest)
    // At the hand-over only what is left of the last frame pulled is lost.
    ensures KeepsUp(trace, frames, framing)
    // Every frame is pulled once, in order, and the whole body went out just when its end was pulled.
    ensures Pulls(trace) <= |frames| + 1 && (r.Head? ==> (r.done <==> Pulls(trace) == |frames| + 1))
    ensures r == Head(true) ==> Failure(frames).None? && Completed(trace, frames, framing)
    ensures r.Head? ==> Heard(trace) == Some(true)
    ensures r.NoHead? ==> Heard(trace) == Some(false)
    ensures r.WriteFailed? ==> Refused(trace) && (r.status.Broken? ==> Heard(trace).None?)
    // A body fails only once everything before the failure has been taken.
    ensures r.SourceFailed? ==> && Failure(frames) == Some(r.code) && 0 < Pulls(trace) <= |frames|
                                && frames[Pulls(trace) - 1] == Fault(r.code)
                                && Taken(Offers(trace)) == Payload(frames, framing)
    // And a failure that was pulled is what the call reports.
    ensures 0 < Pulls(trace) <= |frames| && frames[Pulls(trace) - 1].Fault? ==>
              r == SourceFailed(frames[Pulls(trace) - 1].code)
  {
    hide KeepsUp, InOrder, Taken, Offers, Heard, Settled, NoneAbandoned, Ends, FramedPieces, Slices, OnlyPolls, Payload,
      Terminator, Pieces, Failure, Cut, ClosingOpens, Completed, Pending, Polls, Sound, Between,
      Scripted, Played, GaveUp, Pulls, Refused, AfterAnswer;
    AtStart(frames, framing);
    BetweenKeepsUp([], frames, framing, frames, []);
    ScriptStarts(None, ticks);
    ScriptedIsPlayed([], ticks, ticks);
    var head: Option<bool>, body := None, frames;
    rest := ticks;
    ghost var start := rest;
    var status, polls, ready, more;
    ghost var done: seq<Bytes> := [];
    trace := [];
    while head.None?
      invariant head.None? ==> Between(trace, frames, framing, body, done)
      invariant Sound(trace, frames, framing) && Settled(trace) && head == Heard(trace)
      invariant head.None? ==> Scripted(trace, None, ticks, rest)
      invariant Played(trace, None, ticks, rest) && GaveUp(trace, ticks, rest) && Pulls(trace) + |body| == |frames|
      invariant KeepsUp(trace, frames, framing)
      invariant body == frames[|frames| - |body|..] && NoFault(frames[..|frames| - |body|])
      decreases |body|
    {
      start := rest;
      ready, head, polls, rest := UntilHead(rest);
      PulledScript(trace, polls, ticks, start, rest, ready);
      AfterPolls(trace, polls, frames, framing, body, done);
      trace := trace + polls;
      BetweenIsSound(trace, frames, framing, body, done);
      BetweenKeepsUp(trace, frames, framing, body, done);
      if !ready {
        if head.Some? {
          break;
        }
        return Suspended, trace, rest;
      }
      trace := trace + [Pulled];
      BetweenIsSound(trace, frames, framing, body, done);
      BetweenKeepsUp(trace, frames, framing, body, done);
      ScriptedIsPlayed(trace, ticks, rest);
      if body == [] {
        start := rest;
        status, head, more, rest := Close(framing, head, rest);
        ScriptsJoin(trace, more, None, ticks, start, rest);
        ScriptedIsPlayed(trace + more, ticks, rest);
        RefusedJoins(trace, more);
        AfterClose(trace, more, frames, framing, done);
        KeptToTheEnd(trace + more, frames, framing);
        if status.Done? {
          r, trace, rest := Finish(trace, more, head, true, rest, frames, framing, ticks);
          KeptToTheEnd(trace, frames, framing);
          return;
        }
        return if status.Waiting? then Suspended else WriteFailed(status), trace + more, rest;
      }
      var frame := body[0];
      assert frame == frames[|frames| - |body|];
      if frame.Fault? {
        return SourceFailed(frame.code), trace, rest;
      }
      assert frames[..|frames| - |body| + 1] == frames[..|frames| - |body|] + [frame];
      if frame.Data? {
        start := rest;
        status, head, more, rest := DriveFrame(frame.bytes, framing, head, rest);
        ScriptsJoin(trace, more, None, ticks, start, rest);
        ScriptedIsPlayed(trace + more, ticks, rest);
        RefusedJoins(trace, more);
        AfterFrame(trace, more, frames, framing, body, done);
        FrameKeepsUp(trace, more, frames, framing, body, done);
        trace, done := trace + more, done + Slices(frame.bytes);
        if !status.Done? {
          return if status.Waiting? then Suspended else WriteFailed(status), trace, rest;
        }
      } else {
        AfterTrailers(trace, frames, framing, body, done);
      }
      body := body[1..];
    }
    assert trace + [] == trace;
    ghost var was := trace;
    r, trace, rest := Finish(trace, [], head, false, rest, frames, framing, ticks);
    SameKeepsUp(was, trace, frames, framing);
  }

  lemma SameKeepsUp(a: seq<Event>, b: seq<Event>, frames: seq<Frame>, framing: H2Framing)
    requires KeepsUp(a, frames, framing) && Pulls(a) == Pulls(b) && Offers(a) == Offers(b)
    ensures KeepsUp(b, frames, framing)
  {
  }

  lemma KeptToTheEnd(trace: seq<Event>, frames: seq<Frame>, framing: H2Framing)
    requires Pulls(trace) == |frames| + 1 && Payload(frames, framing) <= Taken(Offers(trace))
    ensures KeepsUp(trace, frames, framing)
  {
  }

  /** Some of the frame just pulled. */
  lemma FrameKeepsUp(trace: seq<Event>, more: seq<Event>, frames: seq<Frame>, framing: H2Framing, body: seq<Frame>,
                     done: seq<Bytes>)
    requires Between(trace, frames, framing, body, done) && body != [] && body[0].Data?
    requires Pulls(trace + more) == Pulls(trace) == |frames| - |body| + 1
    requires Taken(Offers(trace + more)) == Taken(Offers(trace)) + Taken(Offers(more))
    requires Taken(Offers(more)) <= FramedPieces(Slices(body[0].bytes), Coding(framing))
    ensures KeepsUp(trace + more, frames, framing)
  {
    hide Pulls, Taken, Offers, FramedPieces, Cut, Pieces, Slices, Failure, Sound, Settled, Ends;
    var k := |frames| - |body|;
    assert frames[k] == body[0];
    PayloadGrows(frames, k, framing);
  }

  lemma ScriptedIsPlayed(trace: seq<Event>, ticks: seq<Tick>, rest: seq<Tick>)
    requires Scripted(trace, None, ticks, rest)
    ensures Played(trace, None, ticks, rest) && GaveUp(trace, ticks, rest)
  {
  }

  lemma NoPolling(head: Option<bool>, ticks: seq<Tick>)
    ensures Polling([], head, ticks, ticks)
  {
    assert ticks[..0] == [];
  }

  /** A wait for a pull: ready, and then the pull is in the trace, or given up. */
  lemma PulledScript(trace: seq<Event>, polls: seq<Event>, ticks: seq<Tick>, start: seq<Tick>, rest: seq<Tick>,
                     ready: bool)
    requires Scripted(trace, None, ticks, start) && Heard(trace).None? && OnlyPolls(polls)
    requires |rest| <= |start| && rest == start[|start| - |rest|..] && polls == Polls(None, start[..|start| - |rest|])
    requires ready ==> rest == AfterAnswer(start) && Pending(start) < |start|
    requires !ready ==> forall i :: 0 <= i < |start| - |rest| ==> start[i].op.Unanswered?
    ensures Played(trace + polls, None, ticks, rest) && (!ready ==> GaveUp(trace + polls, ticks, rest))
    ensures ready ==> Scripted(trace + polls + [Pulled], None, ticks, rest)
  {
    hide Polls, Heard, OnlyPolls, Replays, Left;
    OnlyPollsIn(polls);
    PlayOn(trace, polls, None, ticks, start, rest);
    if ready {
      PollsInAppend(trace + polls, [Pulled]);
      assert [Pulled][1..] == [] && PollsIn([Pulled]) == [];
      ReplaysJoin(trace + polls, [Pulled], ticks);
      OnePull(start);
    }
  }

  lemma {:induction false} OnePull(ticks: seq<Tick>)
    requires Pending(ticks) < |ticks|
    ensures Replays([Pulled], ticks) && Left([Pulled], ticks) == AfterAnswer(ticks)
  {
    assert [Pulled][1..] == [];
  }

  lemma BetweenIsSound(trace: seq<Event>, frames: seq<Frame>, framing: H2Framing, body: seq<Frame>, done: seq<Bytes>)
    requires Between(trace, frames, framing, body, done)
    ensures Sound(trace, frames, framing) && Settled(trace)
    ensures body != [] && body[0].Fault? ==> Failure(frames) == Some(body[0].code)
  {
  }

  lemma AfterTrailers(trace: seq<Event>, frames: seq<Frame>, framing: H2Framing, body: seq<Frame>, done: seq<Bytes>)
    requires Between(trace, frames, framing, body, done) && body != [] && body[0].Trailers?
    ensures Between(trace, frames, framing, body[1..], done)
  {
    hide InOrder, Taken, Offers, Heard, Settled, NoneAbandoned, Ends, FramedPieces, IsRest;
    RestShrinks(frames, body, done);
    assert done + [] == done;
  }

  // ---------------------------------------------------------------- what the peer reads

  /** A body that is not framed by hand goes out as its data and nothing else. */
  lemma PlainIsContent(frames: seq<Frame>, framing: H2Framing)
    requires !framing.ManualChunked?
    ensures Closed(frames, framing) == Payload(frames, framing) == Content(frames)
  {
    CuttingKeepsTheBytes(Pieces(frames));
    ExactIsPlain(Cut(Pieces(frames)), Exact(0));
  }

  /** A hand-framed body that went out whole is read as its data. */
  lemma ChunkedRequestReadsBack(frames: seq<Frame>, trace: seq<Event>)
    requires Sound(trace, frames, ManualChunked)
    ensures var taken := Taken(Offers(trace));
            ReadRequest(Message(None, Some(CHUNKED), taken))
            == if taken == Closed(frames, ManualChunked) then Complete(Content(frames), []) else Unfinished
  {
    ChunkedArrival(frames, Taken(Offers(trace)));
  }

  /** On this path a declared length is never compared with the body, so a body that went out whole is
      understood exactly when its length was declared right. */
  lemma ExactRequestIsUnchecked(frames: seq<Frame>, n: nat)
    requires n <= 0xFFFF_FFFF
    ensures var m := Message(Some(Print(TotalLength(Exact(n)), Decimal)), None, Closed(frames, Exactly(n)));
            ReadRequest(m) == Complete(Content(frames), []) <==> n == |Content(frames)|
  {
    hide Print;
    CuttingKeepsTheBytes(Pieces(frames));
    ExactIsPlain(Cut(Pieces(frames)), Exact(0));
    ExactArrival(n, Content(frames));
  }

  /** The instance: two bytes declared as one leave the peer with a whole request and a stray byte. */
  lemma ExactRequestCanMislead()
    ensures var frames := [Frame.Data([1, 2])];
            var m := Message(Some(Print(TotalLength(Exact(1)), Decimal)), None, Closed(frames, Exactly(1)));
            ReadRequest(m) == Complete([1], [2])
  {
    hide Print;
    var frames := [Frame.Data([1, 2])];
    PlainPair(frames);
    ExactArrival(1, [1, 2]);
  }
}
