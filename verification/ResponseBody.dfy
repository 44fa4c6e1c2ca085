/**
 The body of a response read off WinHTTP: one owned read at a time, a declared length
 counted down, and a connection that ends early reported as truncation.

 The platform is adversarial.  Each turn says what it claims to have available, what it
 returns, and how much more room the allocator gave than the buffer was asked to have.
 */
module ResponseBody {
  import opened Wrappers
  import opened Wire

  const MAX_READ: nat := 65536

  datatype Turn = Turn(available: Result<nat, nat>, data: Result<Bytes, nat>, slack: nat)

  datatype ReadError = Read(code: nat) | Truncated(expected: nat, received: nat)

  /** `Busy` keeps the limit its read was started with. */
  datatype State = Idle | Busy(cap: Option<nat>) | Finished

  datatype Item = Data(bytes: Bytes) | Fail(e: ReadError) | End

  datatype Poll = Pending | Ready(item: Item)

  datatype View = View(state: State, remaining: Option<nat>, delivered: nat)

  // ---------------------------------------------------------------- one read

  /** The room in the buffer of one read: what was asked for, and the allocator's surplus. */
  function Room(available: nat, slack: nat, cap: Option<nat>): nat {
    var wanted := Min(available, MAX_READ);
    slack + match cap
            case None => wanted
            case Some(remaining) => Min(wanted, if remaining == 0 then 1 else remaining)
  }

  /** What the platform puts into the buffer of a turn. */
  function Came(turn: Turn, cap: Option<nat>): Bytes {
    if turn.available.Ok? && turn.available.value > 0 && turn.data.Ok?
    then turn.data.value[..Min(|turn.data.value|, Room(turn.available.value, turn.slack, cap))]
    else []
  }

  /** A read takes all that fits: what was available, 64 KiB and a declared remainder permitting, and the surplus
      room; so that bytes that are there are never taken for the end. */
  lemma ReadsMakeProgress(turn: Turn, cap: Option<nat>)
    requires turn.available.Ok? && turn.available.value > 0 && turn.data.Ok?
    ensures var data, room := turn.data.value, Min(turn.available.value, 65536);
            && Came(turn, cap) <= data
            && (cap.None? ==> |Came(turn, cap)| == Min(|data|, room + turn.slack))
            && (cap.Some? && cap.value > 0 ==> |Came(turn, cap)| == Min(|data|, Min(room, cap.value) + turn.slack))
            && (data != [] ==> Came(turn, cap) != [])
  {
  }

  /** One turn of the two-call protocol: no data, a non-empty chunk that fits, or an error. */
  function ReadOnce(turn: Turn, cap: Option<nat>): (r: Result<Option<Bytes>, ReadError>)
    ensures r.Ok? ==> r.value == if Came(turn, cap) == [] then None else Some(Came(turn, cap))
    ensures r.Err? <==> turn.available.Err? || (turn.available.value > 0 && turn.data.Err?)
    ensures r.Err? ==> Came(turn, cap) == []
    ensures turn.available.Ok? ==> |Came(turn, cap)| <= Room(turn.available.value, turn.slack, cap)
  {
    match (turn.available, turn.data)
    case (Err(code), _) => Err(Read(code))
    case (Ok(0), _) => Ok(None)
    case (Ok(_), Err(code)) => Err(Read(code))
    case (Ok(available), Ok(data)) =>
      var read := data[..Min(|data|, Room(available, turn.slack, cap))];
      if read == [] then Ok(None) else Ok(Some(read))
  }

  // ---------------------------------------------------------------- polling

  function Start(declared: Option<nat>): View {
    View(Idle, declared, 0)
  }

  function Shortfall(v: View): Option<ReadError> {
    match v.remaining
    case None => None
    case Some(missing) => if missing == 0 then None else Some(Truncated(v.delivered + missing, v.delivered))
  }

  /** Taking a chunk into account. */
  function Deliver(v: View, chunk: Bytes): View {
    View(Idle,
         if v.remaining.None? then None
         else Some(if v.remaining.value < |chunk| then 0 else v.remaining.value - |chunk|),
         v.delivered + |chunk|)
  }

  /** The limit a poll in this state reads under. */
  function CapOf(v: View): Option<nat> {
    if v.state.Busy? then v.state.cap else v.remaining
  }

  /** What one poll does; `None` is a read that has not finished. */
  function Step(v: View, turn: Option<Turn>): (View, Poll) {
    if v.state.Finished? || (v.state.Idle? && v.remaining == Some(0)) then (v.(state := Finished), Ready(End))
    else
      var cap := CapOf(v);
      if turn.None? then (v.(state := Busy(cap)), Pending)
      else
        match ReadOnce(turn.value, cap)
        case Err(e) => (v.(state := Finished), Ready(Fail(e)))
        case Ok(Some(chunk)) => (Deliver(v, chunk), Ready(Item.Data(chunk)))
        case Ok(None) =>
          (v.(state := Finished), Ready(if Shortfall(v).Some? then Fail(Shortfall(v).value) else End))
  }

  class Native {
    var state: State
    var remaining: Option<nat>
    var delivered: nat

    ghost function Now(): View
      reads this
    {
      View(state, remaining, delivered)
    }

    constructor (declared: Option<nat>)
      ensures Now() == Start(declared)
    {
      state, remaining, delivered := Idle, declared, 0;
    }

    /** A body that is over before it starts. */
    constructor Empty()
      ensures Now() == View(Finished, Some(0), 0)
    {
      state, remaining, delivered := Finished, Some(0), 0;
    }

    method PollFrame(turn: Option<Turn>) returns (p: Poll)
      modifies this
      ensures (Now(), p) == Step(old(Now()), turn)
    {
      hide ReadOnce, Came, Room;
      while true
        invariant Step(Now(), turn) == Step(old(Now()), turn)
        decreases match state case Idle => 1 case _ => 0
      {
        var was := state;
        state := Finished;
        match was
        case Finished =>
          return Ready(End);
        case Idle =>
          if remaining == Some(0) {
            return Ready(End);
          }
          state := Busy(remaining);
        case Busy(cap) =>
          if turn.None? {
            state := Busy(cap);
            return Pending;
          }
          var outcome := ReadOnce(turn.value, cap);
          if outcome.Err? {
            return Ready(Fail(outcome.error));
          }
          if outcome.value.None? {
            var short := Shortfall(View(state, remaining, delivered));
            return Ready(if short.Some? then Fail(short.value) else End);
          }
          var chunk := outcome.value.value;
          delivered := delivered + |chunk|;
          if remaining.Some? {
            remaining := Some(if remaining.value < |chunk| then 0 else remaining.value - |chunk|);
          }
          state := Idle;
          return Ready(Item.Data(chunk));
      }
    }
  }

  // ---------------------------------------------------------------- whole runs

  function Run(v: View, turns: seq<Option<Turn>>): (polls: seq<Poll>)
    ensures |polls| == |turns|
    decreases |turns|
  {
    if turns == [] then []
    else [Step(v, turns[0]).1] + Run(Step(v, turns[0]).0, turns[1..])
  }

  function After(v: View, turns: seq<Option<Turn>>): View
    decreases |turns|
  {
    if turns == [] then v else After(Step(v, turns[0]).0, turns[1..])
  }

  /** All the bytes a run has yielded. */
  function Received(polls: seq<Poll>): Bytes {
    if polls == [] then []
    else (if polls[0].Ready? && polls[0].item.Data? then polls[0].item.bytes else []) + Received(polls[1..])
  }

  predicate Ended(polls: seq<Poll>) {
    forall i :: 0 <= i < |polls| ==> polls[i] == Ready(End)
  }

  predicate Over(p: Poll) {
    p == Ready(End) || (p.Ready? && p.item.Fail?)
  }

  /** Waiting and non-empty data, then one end or one error, then the end for ever. */
  predicate Proper(polls: seq<Poll>) {
    polls == [] ||
    if Over(polls[0]) then Ended(polls[1..])
    else (polls[0].Pending? || polls[0].item.bytes != []) && Proper(polls[1..])
  }

  lemma {:induction false} StaysEnded(v: View, turns: seq<Option<Turn>>)
    requires v.state.Finished?
    ensures Ended(Run(v, turns))
    decreases |turns|
  {
    if turns != [] {
      StaysEnded(Step(v, turns[0]).0, turns[1..]);
    }
  }

  /** Every run has the shape the body interface asks for. */
  lemma {:induction false} RunsAreProper(v: View, turns: seq<Option<Turn>>)
    ensures Proper(Run(v, turns))
    decreases |turns|
  {
    if turns != [] {
      var (next, poll) := Step(v, turns[0]);
      assert Run(v, turns)[1..] == Run(next, turns[1..]);
      if Over(poll) {
        StaysEnded(next, turns[1..]);
      } else {
        RunsAreProper(next, turns[1..]);
      }
    }
  }

  /** The counters tell the truth about a declared length of `n`: what is left is what has not been
      delivered, and a read in flight is limited by it. */
  predicate Counts(v: View, n: nat) {
    && v.remaining == Some(if v.delivered <= n then n - v.delivered else 0)
    && (v.state.Busy? ==> v.state.cap == v.remaining && v.remaining != Some(0))
  }

  lemma StepCounts(v: View, turn: Option<Turn>, n: nat)
    requires Counts(v, n)
    ensures var (next, poll) := Step(v, turn);
            && Counts(next, n) && next.delivered == v.delivered + |Received([poll])|
            && (Over(poll) ==> next.state.Finished?)
            && (poll == Ready(End) && !v.state.Finished? ==> next.delivered >= n)
            && (poll.Ready? && poll.item.Fail? && poll.item.e.Truncated? ==>
                  poll.item.e == Truncated(n, next.delivered) && next.delivered < n)
  {
    var (next, poll) := Step(v, turn);
    assert [poll][1..] == [];
    var cap := if v.state.Busy? then v.state.cap else v.remaining;
    if turn.Some? {
      var read := ReadOnce(turn.value, cap);
    }
  }

  /** After any run the counters still tell the truth. */
  lemma {:induction false} RunCounts(v: View, turns: seq<Option<Turn>>, n: nat)
    requires Counts(v, n)
    ensures Counts(After(v, turns), n)
    ensures After(v, turns).delivered == v.delivered + |Received(Run(v, turns))|
    decreases |turns|
  {
    if turns != [] {
      var (next, poll) := Step(v, turns[0]);
      StepCounts(v, turns[0], n);
      assert [poll][1..] == [];
      RunCounts(next, turns[1..], n);
    }
  }

  /** How the run ended: the first end or error among its polls. */
  function Verdict(polls: seq<Poll>): Option<Item> {
    if polls == [] then None
    else if Over(polls[0]) then Some(polls[0].item)
    else Verdict(polls[1..])
  }

  /** A clean end means at least the declared bytes arrived; a truncation names both numbers truly. */
  lemma {:induction false} VerdictIsTrue(v: View, turns: seq<Option<Turn>>, n: nat)
    requires Counts(v, n) && !v.state.Finished?
    ensures var verdict, total := Verdict(Run(v, turns)), After(v, turns).delivered;
            && (verdict == Some(End) ==> total >= n)
            && (verdict.Some? && verdict.value.Fail? && verdict.value.e.Truncated? ==>
                  verdict.value.e == Truncated(n, total) && total < n)
    decreases |turns|
  {
    if turns != [] {
      var (next, poll) := Step(v, turns[0]);
      StepCounts(v, turns[0], n);
      assert Run(v, turns)[1..] == Run(next, turns[1..]);
      if Over(poll) {
        NothingMore(next, turns[1..]);
      } else {
        VerdictIsTrue(next, turns[1..], n);
      }
    }
  }

  lemma {:induction false} NothingMore(v: View, turns: seq<Option<Turn>>)
    requires v.state.Finished?
    ensures After(v, turns).delivered == v.delivered && Received(Run(v, turns)) == []
    decreases |turns|
  {
    if turns != [] {
      NothingMore(Step(v, turns[0]).0, turns[1..]);
    }
  }

  /** Everything the platform delivers to a run, turn by turn, until the body is over. */
  function Arrivals(v: View, turns: seq<Option<Turn>>): Bytes
    decreases |turns|
  {
    if turns == [] || v.state.Finished? || (v.state.Idle? && v.remaining == Some(0)) then []
    else (if turns[0].Some? then Came(turns[0].value, CapOf(v)) else []) + Arrivals(Step(v, turns[0]).0, turns[1..])
  }

  /** The frames are what the platform delivered, in order: no byte is lost, repeated or invented. */
  lemma {:induction false} NothingIsLost(v: View, turns: seq<Option<Turn>>)
    ensures Received(Run(v, turns)) == Arrivals(v, turns)
    decreases |turns|
  {
    if turns != [] {
      var (next, poll) := Step(v, turns[0]);
      assert Run(v, turns)[1..] == Run(next, turns[1..]);
      if next.state.Finished? {
        NothingMore(next, turns[1..]);
      } else {
        NothingIsLost(next, turns[1..]);
      }
    }
  }

  // ---------------------------------------------------------------- exact buffers

  /** The allocator never gives more room than was asked for. */
  predicate Snug(turns: seq<Option<Turn>>) {
    forall i :: 0 <= i < |turns| && turns[i].Some? ==> turns[i].value.slack == 0
  }

  lemma {:induction false} SnugNeverOverruns(v: View, turns: seq<Option<Turn>>, n: nat)
    requires Counts(v, n) && v.delivered <= n && Snug(turns)
    ensures After(v, turns).delivered <= n
    decreases |turns|
  {
    if turns != [] {
      StepCounts(v, turns[0], n);
      SnugStep(v, turns[0], n);
      SnugNeverOverruns(Step(v, turns[0]).0, turns[1..], n);
    }
  }

  lemma SnugStep(v: View, turn: Option<Turn>, n: nat)
    requires Counts(v, n) && v.delivered <= n && (turn.Some? ==> turn.value.slack == 0)
    ensures Step(v, turn).0.delivered <= n
  {
  }

  /** Whatever the buffers: the counters are the bytes yielded and the rest of the declaration, and the end is
      clean exactly when all of it was delivered.  With exact buffers the two add up to the declaration. */
  lemma DeclaredBodyIsConserved(n: nat, turns: seq<Option<Turn>>)
    ensures var v, polls := After(Start(Some(n)), turns), Run(Start(Some(n)), turns);
            && v.delivered == |Received(polls)|
            && v.remaining == Some(if v.delivered <= n then n - v.delivered else 0)
            && (Verdict(polls).Some? ==> (Verdict(polls) == Some(End) <==> |Received(polls)| >= n))
            && (Snug(turns) ==> v.delivered + v.remaining.value == n)
  {
    var v := Start(Some(n));
    RunCounts(v, turns, n);
    VerdictIsTrue(v, turns, n);
    FullIsClean(v, turns, n);
    if Snug(turns) {
      SnugNeverOverruns(v, turns, n);
    }
  }

  lemma {:induction false} FullIsClean(v: View, turns: seq<Option<Turn>>, n: nat)
    requires Counts(v, n) && !v.state.Finished?
    ensures After(v, turns).delivered >= n && Verdict(Run(v, turns)).Some? ==> Verdict(Run(v, turns)) == Some(End)
    decreases |turns|
  {
    if turns != [] {
      var (next, poll) := Step(v, turns[0]);
      StepCounts(v, turns[0], n);
      assert Run(v, turns)[1..] == Run(next, turns[1..]);
      if Over(poll) {
        NothingMore(next, turns[1..]);
      } else {
        FullIsClean(next, turns[1..], n);
      }
    }
  }

  /** A read of a body that owes `n - delivered` bytes keeps the sum whatever the platform returns if and
      only if its buffer has no more room than that. */
  lemma ConservedIffRoomFits(v: View, n: nat, available: nat, slack: nat)
    requires Counts(v, n) && !v.state.Finished? && v.delivered < n && available > 0
    ensures (forall data :: Step(v, Some(Turn(Ok(available), Ok(data), slack))).0.delivered <= n)
            <==> Room(available, slack, v.remaining) <= n - v.delivered
  {
    var room := Room(available, slack, v.remaining);
    if room > n - v.delivered {
      var data: Bytes := seq(room, _ => 0);
      assert data[..room] == data;
      assert Step(v, Some(Turn(Ok(available), Ok(data), slack))).0.delivered > n;
    }
  }

  /** The failing case: one byte owed, one byte of surplus room, two bytes delivered. */
  lemma SurplusRoomOverruns()
    ensures var v := After(Start(Some(1)), [Some(Turn(Ok(2), Ok([1, 2]), 1))]);
            v.delivered == 2 && v.remaining == Some(0)
  {
    var turn := Turn(Ok(2), Ok([1, 2]), 1);
    assert [Some(turn)][1..] == [];
    assert [1, 2][..2] == [1, 2];
    assert ReadOnce(turn, Some(1)) == Ok(Some([1, 2]));
  }

  // ---------------------------------------------------------------- the hints

  predicate IsEndStream(v: View) {
    v.state.Finished? || v.remaining == Some(0)
  }

  lemma {:induction false} UndeclaredStaysOpen(v: View, turns: seq<Option<Turn>>)
    requires v.remaining.None?
    ensures After(v, turns).remaining.None?
    decreases |turns|
  {
    if turns != [] {
      UndeclaredStaysOpen(Step(v, turns[0]).0, turns[1..]);
    }
  }

  /** A body that says it is over yields nothing more, whatever the platform does. */
  lemma EndStreamIsTrue(declared: Option<nat>, before: seq<Option<Turn>>, turns: seq<Option<Turn>>)
    ensures var v := After(Start(declared), before);
            && (IsEndStream(v) ==> Ended(Run(v, turns)))
            && (!IsEndStream(v) ==> !Ended(Run(v, [Some(Turn(Err(0), Err(0), 0))])))
  {
    var v := After(Start(declared), before);
    if declared.None? {
      UndeclaredStaysOpen(Start(declared), before);
    } else {
      RunCounts(Start(declared), before, declared.value);
    }
    var failing := Some(Turn(Err(0), Err(0), 0));
    assert Run(v, [failing])[0] == Step(v, failing).1;
    if IsEndStream(v) && turns != [] {
      StaysEnded(Step(v, turns[0]).0, turns[1..]);
    }
  }

  /** The size hint is exactly what a run that ends cleanly still delivers. */
  lemma HintIsKept(n: nat, before: seq<Option<Turn>>, turns: seq<Option<Turn>>)
    requires Snug(before) && Snug(turns)
    ensures var v := After(Start(Some(n)), before);
            !v.state.Finished? && Verdict(Run(v, turns)) == Some(End) ==>
              v.remaining == Some(|Received(Run(v, turns))|)
  {
    var v := After(Start(Some(n)), before);
    RunCounts(Start(Some(n)), before, n);
    SnugNeverOverruns(Start(Some(n)), before, n);
    if !v.state.Finished? {
      RunCounts(v, turns, n);
      SnugNeverOverruns(v, turns, n);
      VerdictIsTrue(v, turns, n);
    }
  }
}
