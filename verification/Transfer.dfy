/**
 Whole-payload transfers over files, pipes and sockets: loops that move a bounded window
 over a partly initialised buffer while the platform completes less than was asked for,
 delivers empty messages, or fails.
 */
module Transfer {
  import opened Wrappers
  import opened Wire
  import opened Transmit

  const HELPER_CHUNK: nat := 4096
  const U64_MAX: nat := 0xFFFF_FFFF_FFFF_FFFF

  const ERROR_HANDLE_EOF: nat := 38
  const ERROR_UNEXP_NET_ERR: nat := 59
  const ERROR_NETNAME_DELETED: nat := 64
  const ERROR_BROKEN_PIPE: nat := 109
  const ERROR_NO_DATA: nat := 232
  const ERROR_PIPE_NOT_CONNECTED: nat := 233
  const ERROR_MORE_DATA: nat := 234
  const ERROR_CONNECTION_ABORTED: nat := 1236
  const WSAENETRESET: nat := 10052
  const WSAECONNABORTED: nat := 10053
  const WSAECONNRESET: nat := 10054
  const WSAESHUTDOWN: nat := 10058
  const WSAEDISCON: nat := 10101

  datatype Kind = File | Pipe | Socket

  datatype ReadOutcome = Bytes(n: nat) | Eof | ClosedPeer | MoreData(n: nat)

  datatype TransferError = UnexpectedEof | PeerClosed | Win32(code: nat)

  datatype Outcome = Finished | Stopped(e: TransferError) | Suspended

  /** What the platform does with one read: an error if it reports one, the bytes it wrote into the window
      (on an error they may be garbage), and how far a growing allocation exceeds what was asked. */
  datatype Reading = Reading(error: Option<nat>, data: Wire.Bytes, surplus: nat)

  // ---------------------------------------------------------------- the buffer

  /** An allocation whose cells may not have been written, and the length it publishes. */
  datatype Buffer = Buffer(cells: seq<Option<Byte>>, len: nat) {
    /** Nothing unwritten is published, and nothing past the capacity. */
    ghost predicate Valid() {
      len <= |cells| && forall i :: 0 <= i < len ==> cells[i].Some?
    }

    function Published(): Wire.Bytes
      requires Valid()
    {
      seq(len, i requires 0 <= i < len => cells[i].value)
    }
  }

  function Written(data: Wire.Bytes): seq<Option<Byte>> {
    seq(|data|, i requires 0 <= i < |data| => Some(data[i]))
  }

  /** The room of a window of bounded size at an offset. */
  function Window(capacity: nat, offset: nat): nat {
    var start := Min(offset, capacity);
    Min(start + HELPER_CHUNK, capacity) - start
  }

  /** The buffer holds these bytes at an offset. */
  predicate Holds(b: Buffer, offset: nat, data: Wire.Bytes) {
    offset + |data| <= |b.cells| && forall i :: 0 <= i < |data| ==> b.cells[offset + i] == Some(data[i])
  }

  function Fill(b: Buffer, offset: nat, data: Wire.Bytes): (r: Buffer)
    requires b.Valid() && offset <= b.len && offset + |data| <= |b.cells|
    ensures |r.cells| == |b.cells| && r.len == b.len && r.Valid() && r.(len := offset + |data|).Valid()
    ensures r.cells[..offset] == b.cells[..offset] && Holds(r, offset, data)
  {
    b.(cells := b.cells[..offset] + Written(data) + b.cells[offset + |data|..])
  }

  /** More capacity when there is none left. */
  function Grown(capacity: nat, len: nat, surplus: nat): nat {
    if len == capacity then capacity + HELPER_CHUNK + surplus else capacity
  }

  function Reserve(b: Buffer, surplus: nat): (r: Buffer)
    requires b.Valid()
    ensures r.Valid() && r.len == b.len < |r.cells| == Grown(|b.cells|, b.len, surplus)
    ensures |r.cells| == if b.len == |b.cells| then |b.cells| + 4096 + surplus else |b.cells|
    ensures r.Published() == b.Published()
  {
    if b.len == |b.cells| then b.(cells := b.cells + seq(HELPER_CHUNK + surplus, _ => None)) else b
  }

  // ---------------------------------------------------------------- one read

  /** A recognised outcome, or nothing when the raw error is to surface. */
  function Classify(kind: Kind, error: Option<nat>, n: nat, requested: nat): Option<ReadOutcome> {
    if kind.Socket? then
      if error.Some? then None
      else if n == 0 && requested > 0 then Some(ClosedPeer)
      else Some(ReadOutcome.Bytes(n))
    else
      match error
      case None => Some(ReadOutcome.Bytes(n))
      case Some(code) =>
        if code == ERROR_HANDLE_EOF then Some(Eof)
        else if code in {ERROR_BROKEN_PIPE, ERROR_PIPE_NOT_CONNECTED, ERROR_NETNAME_DELETED} then Some(ClosedPeer)
        else if code == ERROR_MORE_DATA then Some(MoreData(n))
        else None
  }

  predicate IsClosed(code: nat) {
    code in {ERROR_BROKEN_PIPE, ERROR_NO_DATA, ERROR_PIPE_NOT_CONNECTED, ERROR_NETNAME_DELETED,
             ERROR_CONNECTION_ABORTED, ERROR_UNEXP_NET_ERR, WSAECONNRESET, WSAECONNABORTED, WSAENETRESET,
             WSAESHUTDOWN, WSAEDISCON}
  }

  /** The names under which a vanished peer is reported: three of pipes, three by completion packets and five by
      Winsock. */
  lemma ClosedCodes(code: nat)
    ensures ClassifyError(code)
            == if code in {109, 232, 233, 59, 64, 1236, 10052, 10053, 10054, 10058, 10101} then PeerClosed
               else Win32(code)
  {
  }

  function ClassifyError(code: nat): TransferError {
    if IsClosed(code) then PeerClosed else Win32(code)
  }

  /** A completed read as the loop sees it: where it was asked to read from, where the window began in a buffer
      of what capacity, what arrived and what was said. */
  datatype Read = Read(position: nat, offset: nat, capacity: nat, data: Wire.Bytes, outcome: Result<ReadOutcome, nat>)

  /** The loops read on: bytes arrived, perhaps none. */
  predicate GoesOn(r: Read) {
    r.outcome.Ok? && ((r.outcome.value.Bytes? && r.outcome.value.n == |r.data|)
                      || (r.outcome.value.MoreData? && r.outcome.value.n == |r.data|))
  }

  /** The read is what the platform did: everything it delivered that had room in the window, and its verdict. */
  predicate Answers(kind: Kind, r: Read, answer: Reading) {
    && r.offset < r.capacity
    && r.data == answer.data[..Min(|answer.data|, Min(4096, r.capacity - r.offset))]
    && match Classify(kind, answer.error, |r.data|, HELPER_CHUNK)
       case Some(outcome) => r.outcome == Ok(outcome)
       case None => answer.error.Some? && r.outcome == Err(answer.error.value)
  }

  /** The bytes that count as delivered. */
  function Gained(r: Read): Wire.Bytes {
    if GoesOn(r) then r.data else []
  }

  function Delivered(log: seq<Read>): Wire.Bytes {
    if log == [] then [] else Delivered(log[..|log| - 1]) + Gained(log[|log| - 1])
  }

  /** One read into the window at `offset`: the platform writes at most what fits, and the length is
      published only when the platform vouches for it. */
  function ReadOnce(kind: Kind, position: nat, b: Buffer, offset: nat, answer: Reading): (r: (Read, Buffer))
    requires b.Valid() && offset <= b.len
    ensures r.1.Valid() && |r.1.cells| == |b.cells| && r.1.cells[..offset] == b.cells[..offset]
    ensures r.0.position == position && r.0.offset == offset && r.0.capacity == |b.cells|
    ensures r.0.data == answer.data[..Min(|answer.data|, Window(|b.cells|, offset))]
    ensures r.1.len == offset + |r.0.data| || r.1.len == b.len
    ensures Holds(r.1, offset, r.0.data)
    ensures offset == b.len ==> r.1.len == b.len + |Gained(r.0)|
    ensures r.0.outcome.Ok? && (r.0.outcome.value.Bytes? || r.0.outcome.value.MoreData?) ==> GoesOn(r.0)
    ensures GoesOn(r.0) ==> Gained(r.0) == r.0.data && r.1.len == offset + |r.0.data|
  {
    var data := answer.data[..Min(|answer.data|, Window(|b.cells|, offset))];
    var outcome := Classify(kind, answer.error, |data|, Window(|b.cells|, offset));
    var filled := Fill(b, offset, data);
    var published := answer.error.None? || (outcome.Some? && outcome.value.MoreData?);
    var code := if answer.error.Some? then answer.error.value else 0;
    (Read(position, offset, |b.cells|, data, if outcome.Some? then Ok(outcome.value) else Err(code)),
     if published then filled.(len := offset + |data|) else filled)
  }

  lemma ReadOnceAnswers(kind: Kind, position: nat, b: Buffer, offset: nat, answer: Reading)
    requires b.Valid() && offset <= b.len && offset < |b.cells|
    ensures Answers(kind, ReadOnce(kind, position, b, offset, answer).0, answer)
  {
  }

  function Advance(kind: Kind, position: nat, n: nat): nat {
    if kind.File? then Min(position + n, U64_MAX) else position
  }

  lemma AdvanceTwice(kind: Kind, start: nat, a: nat, b: nat)
    requires start <= U64_MAX
    ensures Advance(kind, Advance(kind, start, a), b) == Advance(kind, start, a + b)
  {
  }

  /** What a file's or a pipe's read means by its code: it goes on after bytes and after part of a message, it
      ends at the end of a file and at a closed peer, and any other error surfaces. */
  lemma ReadMeansItsCode(kind: Kind, r: Read, answer: Reading)
    requires !kind.Socket? && Answers(kind, r, answer)
    ensures GoesOn(r) <==> answer.error == None || answer.error == Some(234)
    ensures r.outcome == Ok(Eof) <==> answer.error == Some(38)
    ensures r.outcome == Ok(ClosedPeer) <==> answer.error in {Some(109), Some(233), Some(64)}
    ensures r.outcome.Err? <==> answer.error.Some? && answer.error.value !in {38, 64, 109, 233, 234}
    ensures r.outcome.Err? ==> Some(r.outcome.error) == answer.error
  {
  }

  /** What a socket's read means: everything but an error goes on, except that nothing at all is the peer's close. */
  lemma SocketReadMeansItsCode(r: Read, answer: Reading)
    requires Answers(Socket, r, answer)
    ensures GoesOn(r) <==> answer.error == None && answer.data != []
    ensures r.outcome == Ok(ClosedPeer) <==> answer.error == None && answer.data == []
    ensures r.outcome.Err? <==> answer.error.Some?
    ensures r.outcome.Err? ==> Some(r.outcome.error) == answer.error
  {
  }

  // ---------------------------------------------------------------- the log of a transfer

  /** A transfer: what it reads, from which position, after how many bytes of a buffer of what capacity, and
      whether the buffer grows. */
  datatype Plan = Plan(kind: Kind, start: nat, base: nat, capacity: nat, grows: bool)

  /** The capacity the next read finds, after those of the log. */
  function NextCapacity(plan: Plan, log: seq<Read>, offset: nat, surplus: nat): nat {
    var capacity := if log == [] then plan.capacity else log[|log| - 1].capacity;
    if plan.grows then Grown(capacity, offset, surplus) else capacity
  }

  /** The read goes on where the log has arrived, in the file and in the buffer. */
  predicate Continues(plan: Plan, log: seq<Read>, r: Read, surplus: nat) {
    && (log != [] ==> GoesOn(log[|log| - 1]))
    && r.position == Advance(plan.kind, plan.start, |Delivered(log)|)
    && r.offset == plan.base + |Delivered(log)|
    && r.capacity == NextCapacity(plan, log, r.offset, surplus)
  }

  /** Every entry is the platform's answer to a read at the place the transfer had reached, and only the
      last can have ended it. */
  predicate Faithful(plan: Plan, log: seq<Read>, answers: seq<Reading>) {
    |log| <= |answers| &&
    (log == [] ||
     var front, last, answer := log[..|log| - 1], log[|log| - 1], answers[|log| - 1];
     && Faithful(plan, front, answers)
     && Continues(plan, front, last, answer.surplus) && Answers(plan.kind, last, answer))
  }

  lemma Logged(plan: Plan, log: seq<Read>, answers: seq<Reading>, r: Read)
    requires Faithful(plan, log, answers) && |log| < |answers| && Answers(plan.kind, r, answers[|log|])
    requires Continues(plan, log, r, answers[|log|].surplus)
    ensures Faithful(plan, log + [r], answers)
    ensures Delivered(log + [r]) == Delivered(log) + Gained(r)
  {
    hide Answers, Continues, Gained;
    assert (log + [r])[..|log|] == log;
  }

  /** The failure is what the last read said. */
  ghost predicate Explained(e: TransferError, log: seq<Read>) {
    log != [] && match log[|log| - 1].outcome
                 case Err(code) => e == ClassifyError(code)
                 case Ok(Eof) => e == UnexpectedEof
                 case Ok(ClosedPeer) => e == PeerClosed
                 case Ok(_) => false
  }

  lemma HoldsMore(was: Buffer, b: Buffer, base: nat, data: Wire.Bytes, read: Read)
    requires Holds(was, base, data) && |was.cells| == |b.cells|
    requires b.cells[..base + |data|] == was.cells[..base + |data|] && Holds(b, base + |data|, read.data)
    ensures Holds(b, base, data + Gained(read))
  {
    forall i | 0 <= i < |data + Gained(read)|
      ensures b.cells[base + i] == Some((data + Gained(read))[i])
    {
      if i < |data| {
        assert b.cells[base + i] == b.cells[..base + |data|][base + i] == was.cells[base + i];
      } else {
        assert b.cells[base + |data| + (i - |data|)] == Some(read.data[i - |data|]);
      }
    }
  }

  // ---------------------------------------------------------------- reading

  /** Fill the whole buffer. */
  method ReadExact(kind: Kind, start: nat, buffer: Buffer, answers: seq<Reading>)
    returns (r: Outcome, b: Buffer, transferred: nat, log: seq<Read>)
    requires buffer.Valid() && start <= U64_MAX
    ensures b.Valid() && |b.cells| == |buffer.cells|
    ensures transferred == |Delivered(log)| <= b.len && Delivered(log) <= b.Published()
    ensures r.Finished? <==> transferred == |b.cells|
    ensures r.Finished? ==> b.Published() == Delivered(log)
    ensures r.Stopped? ==> Explained(r.e, log)
    ensures r.Suspended? ==> |log| == |answers|
    ensures Faithful(Plan(kind, start, 0, |buffer.cells|, false), log, answers)
  {
    hide Delivered, Faithful, Advance, Answers, ReadOnce, Holds, Classify, IsClosed, Window;
    var target := |buffer.cells|;
    ghost var plan := Plan(kind, start, 0, target, false);
    var position := start;
    b, transferred, log := buffer, 0, [];
    NothingRead(plan, answers);
    while transferred < target
      invariant b.Valid() && |b.cells| == target && (log != [] ==> log[|log| - 1].capacity == target)
      invariant transferred == |Delivered(log)| <= b.len && Holds(b, 0, Delivered(log))
      invariant log != [] ==> b.len == transferred && GoesOn(log[|log| - 1])
      invariant Faithful(plan, log, answers) && |log| <= |answers|
      invariant position == Advance(kind, start, transferred)
      decreases |answers| - |log|
    {
      if |log| == |answers| {
        PublishedHolds(b, Delivered(log));
        return Suspended, b, transferred, log;
      }
      var (read, after) := ReadOnce(kind, position, b, transferred, answers[|log|]);
      ReadOnceAnswers(kind, position, b, transferred, answers[|log|]);
      Logged(plan, log, answers, read);
      HoldsMore(b, after, 0, Delivered(log), read);
      log, b := log + [read], after;
      PublishedHolds(b, Delivered(log));
      if read.outcome.Err? {
        return Stopped(ClassifyError(read.outcome.error)), b, transferred, log;
      }
      match read.outcome.value
      case Eof =>
        return Stopped(UnexpectedEof), b, transferred, log;
      case ClosedPeer =>
        return Stopped(PeerClosed), b, transferred, log;
      case Bytes(n) =>
        var taken := Min(n, target - transferred);
        AdvanceTwice(kind, start, transferred, taken);
        position, transferred := Advance(kind, position, taken), transferred + taken;
      case MoreData(n) =>
        var taken := Min(n, target - transferred);
        AdvanceTwice(kind, start, transferred, taken);
        position, transferred := Advance(kind, position, taken), transferred + taken;
    }
    r := Finished;
    PublishedHolds(b, Delivered(log));
  }

  lemma NothingRead(plan: Plan, answers: seq<Reading>)
    requires plan.start <= U64_MAX
    ensures Faithful(plan, [], answers) && Delivered([]) == [] && Advance(plan.kind, plan.start, 0) == plan.start
    ensures forall b :: Holds(b, 0, [])
  {
  }

  lemma PublishedHolds(b: Buffer, data: Wire.Bytes)
    requires b.Valid() && Holds(b, 0, data) && |data| <= b.len
    ensures data <= b.Published()
  {
    forall i | 0 <= i < |data|
      ensures b.Published()[i] == data[i]
    {
      assert b.cells[0 + i] == Some(data[i]);
    }
  }

  lemma ReadAppends(was: Buffer, b: Buffer, read: Read)
    requires was.Valid() && b.Valid() && |was.cells| == |b.cells| && b.cells[..was.len] == was.cells[..was.len]
    requires Holds(b, was.len, read.data) && b.len == was.len + |Gained(read)|
    ensures b.Published() == was.Published() + Gained(read)
  {
    forall i | 0 <= i < b.len
      ensures b.Published()[i] == (was.Published() + Gained(read))[i]
    {
      if i < was.len {
        assert b.cells[i] == b.cells[..was.len][i] == was.cells[..was.len][i];
      } else {
        assert b.cells[was.len + (i - was.len)] == Some(read.data[i - was.len]);
      }
    }
  }

  /** Append everything up to the end of the stream. */
  method ReadToEnd(kind: Kind, start: nat, buffer: Buffer, answers: seq<Reading>)
    returns (r: Outcome, b: Buffer, transferred: nat, log: seq<Read>)
    requires buffer.Valid() && start <= U64_MAX
    ensures b.Valid() && b.Published() == buffer.Published() + Delivered(log)
    ensures transferred == |Delivered(log)|
    ensures r.Finished? ==> log != [] && log[|log| - 1].outcome in {Ok(Eof), Ok(ClosedPeer)}
    ensures r.Stopped? ==> Explained(r.e, log) && log[|log| - 1].outcome.Err?
    ensures r.Suspended? ==> |log| == |answers|
    ensures Faithful(Plan(kind, start, buffer.len, |buffer.cells|, true), log, answers)
  {
    hide Delivered, Faithful, Advance, Answers, ReadOnce, Holds, Classify, IsClosed, Window, Reserve, Grown;
    ghost var plan := Plan(kind, start, buffer.len, |buffer.cells|, true);
    var position := start;
    b, transferred, log := buffer, 0, [];
    NothingRead(plan, answers);
    while true
      invariant b.Valid() && b.Published() == buffer.Published() + Delivered(log)
      invariant |b.cells| == if log == [] then |buffer.cells| else log[|log| - 1].capacity
      invariant transferred == |Delivered(log)|
      invariant log != [] ==> GoesOn(log[|log| - 1])
      invariant Faithful(plan, log, answers) && |log| <= |answers|
      invariant position == Advance(kind, start, transferred)
      decreases |answers| - |log|
    {
      if |log| == |answers| {
        return Suspended, b, transferred, log;
      }
      var grown := Reserve(b, answers[|log|].surplus);
      var (read, after) := ReadOnce(kind, position, grown, grown.len, answers[|log|]);
      ReadOnceAnswers(kind, position, grown, grown.len, answers[|log|]);
      Logged(plan, log, answers, read);
      ReadAppends(grown, after, read);
      log, b := log + [read], after;
      if read.outcome.Err? {
        return Stopped(ClassifyError(read.outcome.error)), b, transferred, log;
      }
      if read.outcome.value.Eof? || read.outcome.value.ClosedPeer? {
        return Finished, b, transferred, log;
      }
      var n := read.outcome.value.n;
      AdvanceTwice(kind, start, transferred, n);
      position, transferred := Advance(kind, position, n), transferred + n;
    }
  }

  /** Every read of a transfer starts where the bytes before it ended: in the buffer always, and on a file in the
      file too, as far as its offset counts. */
  lemma {:induction false} ReadsAdvance(plan: Plan, log: seq<Read>, answers: seq<Reading>, i: nat)
    requires Faithful(plan, log, answers) && i < |log| && plan.start <= U64_MAX
    ensures var moved := |Delivered(log[..i])|;
            && log[i].offset == plan.base + moved
            && log[i].position == if plan.kind.File? then Min(plan.start + moved, 0xFFFF_FFFF_FFFF_FFFF) else plan.start
  {
    var front := log[..|log| - 1];
    if i < |front| {
      assert front[..i] == log[..i];
      ReadsAdvance(plan, front, answers, i);
    }
  }

  /** A file or a pipe is read to its end when the last code says so, and every read before it went on. */
  lemma {:induction false} OnlyTheEndEnds(plan: Plan, log: seq<Read>, answers: seq<Reading>, i: nat)
    requires !plan.kind.Socket? && Faithful(plan, log, answers) && i < |log|
    ensures i < |log| - 1 ==> answers[i].error in {None, Some(234)}
    ensures log[|log| - 1].outcome in {Ok(Eof), Ok(ClosedPeer)} <==>
              answers[|log| - 1].error in {Some(38), Some(64), Some(109), Some(233)}
  {
    hide Answers, GoesOn;
    var front := log[..|log| - 1];
    ReadMeansItsCode(plan.kind, log[|log| - 1], answers[|log| - 1]);
    if front != [] && i < |front| {
      ReadMeansItsCode(plan.kind, front[|front| - 1], answers[|front| - 1]);
      OnlyTheEndEnds(plan, front, answers, i);
    }
  }

  lemma {:induction false} NoFailureSoFar(plan: Plan, log: seq<Read>, answers: seq<Reading>, i: nat)
    requires plan.kind.Socket? && Faithful(plan, log, answers) && i < |log|
    requires log[|log| - 1].outcome.Ok?
    ensures answers[i].error.None?
  {
    var front := log[..|log| - 1];
    assert Answers(Socket, log[|log| - 1], answers[|log| - 1]);
    if i < |front| {
      assert front[|front| - 1] == log[|log| - 2] && front[i] == log[i];
      NoFailureSoFar(plan, front, answers, i);
    }
  }

  /** On a socket a transfer that ended was ended by the peer's orderly close, and no read before it
      failed: a reset is never mistaken for the end. */
  lemma OnlyAnOrderlyCloseEnds(plan: Plan, log: seq<Read>, answers: seq<Reading>)
    requires plan.kind.Socket? && Faithful(plan, log, answers)
    requires log != [] && log[|log| - 1].outcome in {Ok(Eof), Ok(ClosedPeer)}
    ensures forall i :: 0 <= i < |log| ==> answers[i].error.None?
    ensures answers[|log| - 1].data == []
  {
    forall i | 0 <= i < |log|
      ensures answers[i].error.None?
    {
      NoFailureSoFar(plan, log, answers, i);
    }
    assert Answers(Socket, log[|log| - 1], answers[|log| - 1]);
  }

  // ---------------------------------------------------------------- writing

  predicate IsWindow(bytes: Wire.Bytes, at: nat, content: Wire.Bytes) {
    at <= |content| && bytes == content[at..Min(at + HELPER_CHUNK, |content|)]
  }

  /** On a file every write goes to where the bytes taken before it end. */
  lemma WritesAdvance(kind: Kind, start: nat, content: Wire.Bytes, log: seq<Offer>, positions: seq<nat>, i: nat)
    requires Placed(kind, start, content, log, positions) && i < |log| && start <= U64_MAX
    ensures var taken := |Taken(log[..i])|;
            && positions[i] == (if kind.File? then Min(start + taken, 0xFFFF_FFFF_FFFF_FFFF) else start)
            && taken <= |content| && log[i].bytes == content[taken..Min(taken + 4096, |content|)]
  {
    hide Taken;
  }

  /** Every call offers the whole window, from where the platform left off, in the content and in the file. */
  ghost predicate Placed(kind: Kind, start: nat, content: Wire.Bytes, log: seq<Offer>, positions: seq<nat>) {
    && |positions| == |log|
    && forall i :: 0 <= i < |log| ==>
         && IsWindow(log[i].bytes, |Taken(log[..i])|, content)
         && positions[i] == Advance(kind, start, |Taken(log[..i])|)
  }

  lemma OneWindowMore(kind: Kind, start: nat, content: Wire.Bytes, log: seq<Offer>, positions: seq<nat>, offer: Offer)
    requires Placed(kind, start, content, log, positions) && IsWindow(offer.bytes, |Taken(log)|, content)
    ensures Placed(kind, start, content, log + [offer], positions + [Advance(kind, start, |Taken(log)|)])
  {
    hide Taken, Advance, IsWindow;
    var more, places := log + [offer], positions + [Advance(kind, start, |Taken(log)|)];
    forall i | 0 <= i < |more|
      ensures IsWindow(more[i].bytes, |Taken(more[..i])|, content)
      ensures places[i] == Advance(kind, start, |Taken(more[..i])|)
    {
      assert more[..i] == log[..i];
      if i == |log| {
        assert log[..i] == log;
      }
    }
  }

  /** Write the whole buffer, a window at a time: the platform takes a prefix of it, all of it on success. */
  method WriteAllOf(kind: Kind, start: nat, content: Wire.Bytes, answers: seq<Answer>)
    returns (r: Outcome, transferred: nat, log: seq<Offer>, positions: seq<nat>)
    requires start <= U64_MAX
    ensures InOrder(log, content, 0) && transferred == |Taken(log)| && Taken(log) <= content
    ensures r.Finished? <==> transferred == |content|
    ensures Follows(log, answers)
    ensures Placed(kind, start, content, log, positions)
    ensures r.Stopped? ==> log != [] && match log[|log| - 1].answer
                                        case Wrote(n) => n == 0 && r.e == PeerClosed
                                        case Failed(code) => r.e == ClassifyError(code)
                                        case Unanswered => false
    ensures r.Suspended? ==> log != [] && log[|log| - 1].answer.Unanswered?
  {
    hide InOrder, Taken, Follows, Advance, Placed;
    var position := start;
    transferred, log, positions := 0, [], [];
    NothingWritten(kind, content, start, answers);
    while transferred < |content|
      invariant InOrder(log, content, 0) && transferred == |Taken(log)| && Taken(log) <= content
      invariant Follows(log, answers) && |log| <= |answers|
      invariant position == Advance(kind, start, transferred)
      invariant Placed(kind, start, content, log, positions)
      decreases |content| - transferred
    {
      var answer := if |log| < |answers| then answers[|log|] else Unanswered;
      var offer := Offer(content[transferred..Min(transferred + HELPER_CHUNK, |content|)], answer);
      WindowOffered(log, offer, content);
      OfferFollows(log, offer, answers);
      OneWindowMore(kind, start, content, log, positions, offer);
      log, positions := log + [offer], positions + [position];
      if answer.Unanswered? {
        return Suspended, transferred, log, positions;
      }
      if answer.Failed? {
        return Stopped(ClassifyError(answer.code)), transferred, log, positions;
      }
      var n := |Took(offer)|;
      if n == 0 {
        return Stopped(PeerClosed), transferred, log, positions;
      }
      AdvanceTwice(kind, start, transferred, n);
      transferred, position := transferred + n, Advance(kind, position, n);
    }
    r := Finished;
  }

  lemma NothingWritten(kind: Kind, content: Wire.Bytes, start: nat, answers: seq<Answer>)
    requires start <= U64_MAX
    ensures InOrder([], content, 0) && Taken([]) == [] && Follows([], answers) && Advance(kind, start, 0) == start
    ensures Placed(kind, start, content, [], [])
  {
  }

  lemma WindowOffered(log: seq<Offer>, offer: Offer, content: Wire.Bytes)
    requires InOrder(log, content, 0) && Taken(log) <= content && offer.bytes != []
    requires var t := |Taken(log)|; t + |offer.bytes| <= |content| && offer.bytes == content[t..t + |offer.bytes|]
    ensures InOrder(log + [offer], content, 0)
    ensures Taken(log + [offer]) == Taken(log) + Took(offer) && Taken(log + [offer]) <= content
  {
    hide InOrder, Taken, Took;
    OneOffer(offer, content, |Taken(log)|);
    InOrderAppends(log, [offer], content, 0);
    TakenAppends(log, [offer]);
    TakenIsNext(log + [offer], content, 0);
  }

  lemma OneOffer(offer: Offer, content: Wire.Bytes, at: nat)
    requires offer.bytes != [] && IsAt(offer.bytes, content, at)
    ensures InOrder([offer], content, at) && Taken([offer]) == Took(offer)
  {
    assert [offer][1..] == [];
  }

  lemma OfferFollows(log: seq<Offer>, offer: Offer, answers: seq<Answer>)
    requires Follows(log, answers) && |log| <= |answers|
    requires offer.answer == if |log| < |answers| then answers[|log|] else Unanswered
    ensures Follows(log + [offer], answers)
  {
  }
}
