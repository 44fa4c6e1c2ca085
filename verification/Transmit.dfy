/**
 Handing bytes to WinHTTP, which may take less than it was offered.  A log keeps every
 buffer offered and the answer it got; what the peer receives is read off the log.
 */
module Transmit {
  import opened Wire

  /** `Unanswered` is a write still in flight. */
  datatype Answer = Wrote(n: nat) | Failed(code: nat) | Unanswered

  datatype Offer = Offer(bytes: Bytes, answer: Answer)

  datatype Status = Done | Broken | Stalled(remaining: nat) | Waiting

  /** The bytes the platform took from one offer. */
  function Took(offer: Offer): Bytes {
    if !offer.answer.Wrote? then []
    else if offer.answer.n < |offer.bytes| then offer.bytes[..offer.answer.n]
    else offer.bytes
  }

  function Taken(log: seq<Offer>): Bytes {
    if log == [] then [] else Took(log[0]) + Taken(log[1..])
  }

  predicate IsAt(bytes: Bytes, wire: Bytes, at: nat) {
    at + |bytes| <= |wire| && forall i :: 0 <= i < |bytes| ==> bytes[i] == wire[at + i]
  }

  /** Every offer is a non-empty run of `wire` that starts where the platform left off. */
  ghost predicate InOrder(log: seq<Offer>, wire: Bytes, at: nat) {
    log == [] ||
    (log[0].bytes != [] && IsAt(log[0].bytes, wire, at) && InOrder(log[1..], wire, at + |Took(log[0])|))
  }

  /** The log's answers are the platform's, in order; only the last can be missing. */
  ghost predicate Follows(log: seq<Offer>, answers: seq<Answer>) {
    && |log| <= |answers| + 1
    && forall i :: 0 <= i < |log| ==> log[i].answer == if i < |answers| then answers[i] else Unanswered
  }

  /** What happened is what the platform said last. */
  ghost predicate Truthful(s: Status, log: seq<Offer>) {
    match s
    case Done => true
    case Broken => log != [] && log[|log| - 1].answer.Failed?
    case Waiting => log != [] && log[|log| - 1].answer.Unanswered?
    case Stalled(n) => log != [] && log[|log| - 1].answer == Wrote(0) && n == |log[|log| - 1].bytes|
  }

  lemma {:induction false} TakenAppends(a: seq<Offer>, b: seq<Offer>)
    ensures Taken(a + b) == Taken(a) + Taken(b)
  {
    if a == [] {
      assert a + b == b;
    } else {
      assert (a + b)[1..] == a[1..] + b;
      TakenAppends(a[1..], b);
    }
  }

  /** Nothing is lost or repeated: what was taken is the next run of the wire. */
  lemma {:induction false} TakenIsNext(log: seq<Offer>, wire: Bytes, at: nat)
    requires InOrder(log, wire, at) && at <= |wire|
    ensures IsAt(Taken(log), wire, at)
  {
    if log != [] {
      var took := Took(log[0]);
      TakenIsNext(log[1..], wire, at + |took|);
    }
  }

  lemma {:induction false} InOrderAppends(a: seq<Offer>, b: seq<Offer>, wire: Bytes, at: nat)
    requires InOrder(a, wire, at) && InOrder(b, wire, at + |Taken(a)|)
    ensures InOrder(a + b, wire, at)
  {
    hide IsAt, Took;
    if a == [] {
      assert a + b == b;
    } else {
      assert (a + b)[1..] == a[1..] + b;
      InOrderAppends(a[1..], b, wire, at + |Took(a[0])|);
    }
  }

  lemma PartOfAPart(bytes: Bytes, part: Bytes, at: nat, wire: Bytes, start: nat)
    requires IsAt(bytes, part, at) && IsAt(part, wire, start)
    ensures IsAt(bytes, wire, start + at)
  {
    forall i | 0 <= i < |bytes|
      ensures bytes[i] == wire[start + at + i]
    {
      assert bytes[i] == part[at + i];
    }
  }

  /** A log for a part of the wire is a log for the whole. */
  lemma {:induction false} InOrderWithin(log: seq<Offer>, part: Bytes, at: nat, wire: Bytes, start: nat)
    requires InOrder(log, part, at) && IsAt(part, wire, start)
    ensures InOrder(log, wire, start + at)
  {
    if log != [] {
      var bytes := log[0].bytes;
      PartOfAPart(bytes, part, at, wire, start);
      InOrderWithin(log[1..], part, at + |Took(log[0])|, wire, start);
    }
  }

  /** One more offer at the place the log has reached. */
  lemma Offered(log: seq<Offer>, offer: Offer, wire: Bytes)
    requires InOrder(log, wire, 0)
    requires offer.bytes != [] && wire == Taken(log) + offer.bytes
    ensures InOrder(log + [offer], wire, 0) && Taken(log + [offer]) == Taken(log) + Took(offer)
  {
    assert [offer][1..] == [];
    InOrderAppends(log, [offer], wire, 0);
    TakenAppends(log, [offer]);
  }

  lemma Rest(taken: Bytes, pending: Bytes, n: nat)
    requires n <= |pending|
    ensures taken + pending == taken + pending[..n] + pending[n..]
  {
  }

  /** Write a whole buffer, however many calls that takes. */
  method WriteAll(buffer: Bytes, answers: seq<Answer>)
    returns (r: Status, log: seq<Offer>, rest: seq<Answer>)
    ensures InOrder(log, buffer, 0) && Taken(log) <= buffer
    ensures r.Done? <==> Taken(log) == buffer
    ensures r.Stalled? ==> r.remaining == |buffer| - |Taken(log)|
    ensures Follows(log, answers) && Truthful(r, log)
    ensures r.Done? ==> |log| <= |answers| && rest == answers[|log|..]
  {
    hide InOrder, Taken;
    var pending := buffer;
    log, rest := [], answers;
    assert InOrder(log, buffer, 0) && Taken(log) == [] by { NothingOffered(buffer); }
    while pending != []
      invariant InOrder(log, buffer, 0) && buffer == Taken(log) + pending
      invariant |log| <= |answers| && rest == answers[|log|..]
      invariant Follows(log, answers)
      decreases |pending|
    {
      var answer := if rest == [] || rest[0].Unanswered? then Unanswered else rest[0];
      var offer := Offer(pending, answer);
      Offered(log, offer, buffer);
      ghost var was := Taken(log);
      log := log + [offer];
      if answer.Unanswered? {
        return Waiting, log, rest;
      }
      if answer.Failed? {
        return Broken, log, rest;
      }
      rest := rest[1..];
      if answer.n >= |pending| {
        return Done, log, rest;
      }
      if answer.n == 0 {
        return Stalled(|pending|), log, rest;
      }
      Rest(was, pending, answer.n);
      pending := pending[answer.n..];
    }
    return Done, log, rest;
  }

  lemma NothingOffered(wire: Bytes)
    ensures InOrder([], wire, 0) && Taken([]) == []
  {
  }
}
