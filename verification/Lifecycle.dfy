/**
 The shared record behind one overlapped operation, and the actors that race on it:
 the code that submits it and later polls or drops its future, the kernel, the
 completion dispatcher, and the driver's pending table.

 A `Local` is everything one submission can see: its own program counters, the record
 that its pointer leads to, and whether that pointer is listed in the global live set,
 in a proactor's pending table and among the entries a shutdown has taken out of it.
 `Effect` is the code, one atomic step at a time.  A step that reads freed memory, reads
 an unwritten result, takes an operation twice, loses a result or goes through a closed
 handle raises `fault`.
 */
module Lifecycle {
  import opened Wrappers

  type JobId = nat
  type HandleId = nat

  /** The status a finished operation carries: a transferred count, or an error code. */
  datatype Outcome = Done(count: nat) | Failed(code: nat)

  /** Two wakers of one task wake the same task, whichever clone they are. */
  datatype Waker = Waker(task: nat, clone: nat)

  datatype OpState = Submitted | Abandoned | Completed | Terminal

  /** The heap record.  `slot` is `Some` while the result cell holds a value nobody has
      moved out; `op` is the operation, known here by the handle reference it owns. */
  datatype Rec = Rec(id: JobId, strong: nat, state: OpState, slot: Option<Outcome>,
                     waker: Option<Waker>, op: Option<HandleId>, locked: bool)

  /** A proactor, or the thread-pool registration of the operation's own handle. */
  datatype Backend = Driver(p: nat) | Pool

  /** The code holding the key: first `submit`, then the future it returned. */
  datatype Owner =
    | Created | Cloned | Leaked | PoolStarted | Operating | Issued | StartedPending
    | StartedInline(r: Outcome) | Balanced(r: Outcome) | InlineHooked(r: Outcome) | UnleakClaimed(r: Outcome)
    | InlineIdle(r: Outcome) | InlineTaken(r: Outcome)
    | Idle(last: Option<Waker>) | Armed(w: Waker) | Winning | ResultRead(v: Outcome) | OpTaken(v: Outcome)
    | Resolved(v: Outcome) | Consumed(v: Outcome)
    | Dropping | Abandoning | Releasing | Unwound | Gone

  /** What Windows is doing with the operation and its one completion packet. */
  datatype Kernel = NotStarted | Running | Queued(v: Outcome) | Retrieved(v: Outcome) | Delivered

  /** The completion path, from claiming the address to returning. */
  datatype Dispatcher =
    | NotYet | Claimed(v: Outcome) | Hooked(v: Outcome) | Wrote
    | Published | HasWaker(w: Option<Waker>) | Waking(w: Option<Waker>)
    | Discarding | Discarded | Stored | Ended | Returned

  /** What has happened so far, and the status Windows gave, inline or later; no step reads it. */
  datatype History = History(writes: nat, taken: nat, discarded: nat, dropped: nat, hooks: nat, moves: nat,
                             wakes: nat, woken: bool, frees: nat, value: Option<Outcome>)

  datatype Job = Job(addr: Addr, handle: HandleId, backend: Backend, owner: Owner, kernel: Kernel,
                     disp: Dispatcher, inlined: bool, unwound: bool, abandoned: bool, drained: bool,
                     asked: bool, hist: History)

  datatype Local = Local(job: Job, rec: Option<Rec>, live: bool, pend: bool, canc: bool,
                         refs: nat, closes: nat, pool: int, fault: bool)

  datatype Act =
    | LeakClone | LeakInsert | PoolStart | EnterOperate | Issue | FinishInline(r: Outcome) | Unwind
    | ReturnPending | Track | Balance | InlineHook | UnleakClaim | UnleakDrop | UnwindDrop
    | KernelWrite | KernelComplete(v: Outcome) | Retrieve | Claim
    | Hook | WriteResult | Publish | TakeWaker | DropPublished | Wake
    | Discard | StoreTerminal | DropDiscarded | CallbackReturn
    | SetWaker(w: Waker, keep: bool) | TakeCompletion | ReadResult | TakeOp | ReleaseResolved
    | InlineTakeOp | InlineRelease | BeginDrop | Abandon | CancelOp | ReleaseKey | DropValue
    | DrainEntry | CancelEntry | DropEntry

  // ---------------------------------------------------------------- pointers and handles

  function Faulty(l: Local): Local {
    l.(fault := true)
  }

  /** Dropping one clone of the handle; the last one closes it. */
  function DropHandle(l: Local): Local {
    if l.refs == 0 then Faulty(l)
    else l.(refs := l.refs - 1, closes := l.closes + One(l.refs == 1))
  }

  /** The record's destructor: the result is dropped in state `Completed` and only then. */
  function Free(l: Local, r: Rec): Local {
    var l := if (r.state == Completed) != r.slot.Some? then Faulty(l) else l;
    var h := l.job.hist;
    var l := l.(job := l.job.(hist := h.(dropped := h.dropped + One(r.slot.Some?), frees := h.frees + 1)));
    (if r.op.Some? then DropHandle(l) else l).(rec := None)
  }

  /** Dropping one strong reference through the pointer. */
  function DropRef(l: Local): Local {
    match l.rec
    case None => Faulty(l)
    case Some(r) =>
      if r.strong == 0 then Faulty(l)
      else if r.strong == 1 then Free(l, r)
      else l.(rec := Some(r.(strong := r.strong - 1)))
  }

  function AddRef(l: Local): Local {
    match l.rec
    case None => Faulty(l)
    case Some(r) => l.(rec := Some(r.(strong := r.strong + 1)))
  }

  /** Asking the operation to cancel itself, under its lock: a `CancelIoEx` on the handle it
      owns, or nothing when the operation has been moved out. */
  function CancelThroughOp(l: Local): Local {
    if l.rec.None? || (l.rec.value.op.Some? && l.closes > 0) then Faulty(l) else l
  }

  function At(l: Local, o: Owner): Local {
    l.(job := l.job.(owner := o))
  }

  function DispAt(l: Local, d: Dispatcher): Local {
    l.(job := l.job.(disp := d))
  }

  function KernelAt(l: Local, k: Kernel): Local {
    l.(job := l.job.(kernel := k))
  }

  function Log(l: Local, h: History): Local {
    l.(job := l.job.(hist := h))
  }

  predicate Unlocked(l: Local) {
    l.rec.Some? ==> !l.rec.value.locked
  }

  // ---------------------------------------------------------------- the steps

  /** Where each step may run: a matter of program counters and the operation lock. */
  predicate Enabled(l: Local, act: Act) {
    var j := l.job;
    var o, k, d, pool := j.owner, j.kernel, j.disp, j.backend.Pool?;
    match act
    case LeakClone => o.Created?
    case LeakInsert => o.Cloned?
    case PoolStart => o.Leaked? && pool
    case EnterOperate => if pool then o.PoolStarted? else o.Leaked?
    case Issue => o.Operating?
    case FinishInline(r) => o.Operating?
    case Unwind => o.Operating?
    case ReturnPending => o.Issued?
    case Track => o.StartedPending?
    case Balance => o.StartedInline? && pool
    case InlineHook => (if pool then o.Balanced? else o.StartedInline?) && o.r.Done?
    case UnleakClaim => o.InlineHooked? || ((if pool then o.Balanced? else o.StartedInline?) && o.r.Failed?)
    case UnleakDrop => o.UnleakClaimed?
    case UnwindDrop => o.Unwound?
    case KernelWrite => k.Running?
    case KernelComplete(v) => k.Running?
    // A proactor is bound to one thread, which is not polling while it is still submitting.
    case Retrieve => k.Queued? && !pool && !o.Issued? && !o.StartedPending?
    case Claim => if pool then k.Queued? else k.Retrieved?
    case Hook => d.Claimed? && Unlocked(l)
    case WriteResult => d.Hooked?
    case Publish => d.Wrote?
    case TakeWaker => d.Published?
    case DropPublished => d.HasWaker?
    case Wake => d.Waking?
    case Discard => d.Discarding?
    case StoreTerminal => d.Discarded?
    case DropDiscarded => d.Stored?
    case CallbackReturn => d.Ended? && pool
    case SetWaker(w, keep) =>
      o.Idle? && (keep ==> l.rec.Some? && l.rec.value.waker.Some? && l.rec.value.waker.value.task == w.task)
    case TakeCompletion => o.Armed?
    case ReadResult => o.Winning?
    case TakeOp => o.ResultRead? && Unlocked(l)
    case ReleaseResolved => o.OpTaken?
    case InlineTakeOp => o.InlineIdle? && Unlocked(l)
    case InlineRelease => o.InlineTaken?
    case BeginDrop => o.Idle? || o.InlineIdle?
    case Abandon => o.Dropping?
    case CancelOp => o.Abandoning? && Unlocked(l)
    case ReleaseKey => o.Releasing?
    case DropValue => o.Resolved?
    case DrainEntry => l.pend
    case CancelEntry => l.canc && !j.asked && Unlocked(l)
    case DropEntry => l.canc && j.asked
  }

  // Submission: `Key::leak`, the start call, and the three ways it can come back.

  function DoLeakClone(l: Local): Local {
    At(AddRef(l), Cloned)
  }

  function DoLeakInsert(l: Local): Local {
    At(l.(live := true), Leaked)
  }

  function DoPoolStart(l: Local): Local {
    At(l.(pool := l.pool + 1), PoolStarted)
  }

  function SetLock(l: Local, locked: bool): Local {
    if l.rec.None? then Faulty(l) else l.(rec := Some(l.rec.value.(locked := locked)))
  }

  /** Entering `operate`: the operation must be there, unlocked, and its handle open. */
  function DoEnterOperate(l: Local): Local {
    if l.rec.None? || l.rec.value.op.None? || l.rec.value.locked || l.closes > 0 then Faulty(l)
    else At(SetLock(l, true), Operating)
  }

  function DoIssue(l: Local): Local {
    KernelAt(At(l, Issued), Running)
  }

  function DoFinishInline(l: Local, r: Outcome): Local {
    var l := SetLock(l, false);
    At(Log(l.(job := l.job.(inlined := true)), l.job.hist.(value := Some(r))), StartedInline(r))
  }

  /** Unwinding out of `operate`: the start guard balances the pool, the leak stays. */
  function DoUnwind(l: Local): Local {
    var l := SetLock(l, false);
    At(l.(job := l.job.(unwound := true), pool := l.pool - One(l.job.backend.Pool?)), Unwound)
  }

  function DoReturnPending(l: Local): Local {
    At(SetLock(l, false), if l.job.backend.Pool? then Idle(None) else StartedPending)
  }

  function DoTrack(l: Local): Local {
    At(AddRef(l).(pend := true), Idle(None))
  }

  function DoBalance(l: Local): Local
    requires l.job.owner.StartedInline?
  {
    At(l.(pool := l.pool - 1), Balanced(l.job.owner.r))
  }

  function DoInlineHook(l: Local): Local
    requires l.job.owner.StartedInline? || l.job.owner.Balanced?
  {
    var h := l.job.hist;
    if l.rec.None? || l.rec.value.op.None? then Faulty(l)
    else At(Log(l, h.(hooks := h.hooks + 1)), InlineHooked(l.job.owner.r))
  }

  function DoUnleakClaim(l: Local): Local
    requires l.job.owner.StartedInline? || l.job.owner.Balanced? || l.job.owner.InlineHooked?
  {
    if !l.live then Faulty(l) else At(l.(live := false), UnleakClaimed(l.job.owner.r))
  }

  function DoUnleakDrop(l: Local): Local
    requires l.job.owner.UnleakClaimed?
  {
    At(DropRef(l), InlineIdle(l.job.owner.r))
  }

  function DoUnwindDrop(l: Local): Local {
    At(DropRef(l), Gone)
  }

  // The kernel, and the hand-over of its packet to a dispatcher.  A driver first takes the
  // table entry out, then dispatches; a pool callback dispatches at once.

  function DoKernelWrite(l: Local): Local {
    if l.rec.None? then Faulty(l) else l
  }

  function DoKernelComplete(l: Local, v: Outcome): Local {
    if l.rec.None? then Faulty(l) else KernelAt(Log(l, l.job.hist.(value := Some(v))), Queued(v))
  }

  function DoRetrieve(l: Local): Local
    requires l.job.kernel.Queued?
  {
    var v := l.job.kernel.v;
    KernelAt(if l.pend then DropRef(l.(pend := false)) else l, Retrieved(v))
  }

  /** `dispatch_completion_with` on this submission's own packet: claim the address or ignore it. */
  function DoClaim(l: Local): Local
    requires l.job.kernel.Queued? || l.job.kernel.Retrieved?
  {
    if !l.live || l.rec.None? || !l.job.disp.NotYet? then Faulty(l)
    else KernelAt(DispAt(l.(live := false), Claimed(l.job.kernel.v)), Delivered)
  }

  // `complete_erased`.

  function DoHook(l: Local): Local
    requires l.job.disp.Claimed?
  {
    var h := l.job.hist;
    if l.rec.None? then Faulty(l)
    else DispAt(Log(l, h.(hooks := h.hooks + One(l.rec.value.op.Some?))), Hooked(l.job.disp.v))
  }

  function DoWriteResult(l: Local): Local
    requires l.job.disp.Hooked?
  {
    var h := l.job.hist;
    if l.rec.None? || l.rec.value.slot.Some? then Faulty(l)
    else
      DispAt(Log(l.(rec := Some(l.rec.value.(slot := Some(l.job.disp.v)))), h.(writes := h.writes + 1)), Wrote)
  }

  function DoPublish(l: Local): Local {
    if l.rec.None? then Faulty(l)
    else if l.rec.value.state == Submitted then
      DispAt(l.(rec := Some(l.rec.value.(state := Completed))), Published)
    else if l.rec.value.state == Abandoned then DispAt(l, Discarding)
    else Faulty(l)
  }

  function DoTakeWaker(l: Local): Local {
    if l.rec.None? then Faulty(l)
    else DispAt(l.(rec := Some(l.rec.value.(waker := None))), HasWaker(l.rec.value.waker))
  }

  function DoDropPublished(l: Local): Local
    requires l.job.disp.HasWaker?
  {
    DispAt(DropRef(l), Waking(l.job.disp.w))
  }

  /** Whether waking `w` signals the task whose latest poll returned `Pending`. */
  predicate Signals(o: Owner, w: Waker) {
    o.Idle? && o.last.Some? && o.last.value.task == w.task
  }

  function DoWake(l: Local): Local
    requires l.job.disp.Waking?
  {
    var h := l.job.hist;
    match l.job.disp.w
    case None => DispAt(l, Ended)
    case Some(w) =>
      DispAt(Log(l, h.(wakes := h.wakes + 1, woken := h.woken || Signals(l.job.owner, w))), Ended)
  }

  function DoDiscard(l: Local): Local {
    var h := l.job.hist;
    if l.rec.None? || l.rec.value.slot.None? then Faulty(l)
    else DispAt(Log(l.(rec := Some(l.rec.value.(slot := None))), h.(discarded := h.discarded + 1)), Discarded)
  }

  function DoStoreTerminal(l: Local): Local {
    if l.rec.None? then Faulty(l)
    else DispAt(l.(rec := Some(l.rec.value.(state := Terminal))), Stored)
  }

  function DoDropDiscarded(l: Local): Local {
    DispAt(DropRef(l), Ended)
  }

  function DoCallbackReturn(l: Local): Local {
    DispAt(l.(pool := l.pool - 1), Returned)
  }

  // `Submit::poll` and `Submit::drop`, and the caller dropping what a poll returned.

  function DoSetWaker(l: Local, w: Waker, keep: bool): Local {
    if l.rec.None? then Faulty(l)
    else
      var slot := if keep then l.rec.value.waker else Some(w);
      At(Log(l.(rec := Some(l.rec.value.(waker := slot))), l.job.hist.(woken := false)), Armed(w))
  }

  function DoTakeCompletion(l: Local): Local
    requires l.job.owner.Armed?
  {
    if l.rec.None? then Faulty(l)
    else if l.rec.value.state == Completed then At(l.(rec := Some(l.rec.value.(state := Terminal))), Winning)
    else At(l, Idle(Some(l.job.owner.w)))
  }

  function DoReadResult(l: Local): Local {
    var h := l.job.hist;
    if l.rec.None? || l.rec.value.slot.None? then Faulty(l)
    else
      At(Log(l.(rec := Some(l.rec.value.(slot := None))), h.(taken := h.taken + 1)),
         ResultRead(l.rec.value.slot.value))
  }

  /** Moving the operation out of its slot. */
  function MoveOp(l: Local, next: Owner): Local {
    var h := l.job.hist;
    if l.rec.None? || l.rec.value.op.None? then Faulty(l)
    else At(Log(l.(rec := Some(l.rec.value.(op := None))), h.(moves := h.moves + 1)), next)
  }

  function DoTakeOp(l: Local): Local
    requires l.job.owner.ResultRead?
  {
    MoveOp(l, OpTaken(l.job.owner.v))
  }

  function DoReleaseResolved(l: Local): Local
    requires l.job.owner.OpTaken?
  {
    At(DropRef(l), Resolved(l.job.owner.v))
  }

  function DoInlineTakeOp(l: Local): Local
    requires l.job.owner.InlineIdle?
  {
    MoveOp(l, InlineTaken(l.job.owner.r))
  }

  function DoInlineRelease(l: Local): Local
    requires l.job.owner.InlineTaken?
  {
    At(DropRef(l), Resolved(l.job.owner.r))
  }

  function DoBeginDrop(l: Local): Local {
    At(l, if l.job.owner.InlineIdle? then Releasing else Dropping)
  }

  function DoAbandon(l: Local): Local {
    if l.rec.None? then Faulty(l)
    else if l.rec.value.state == Submitted then
      At(l.(rec := Some(l.rec.value.(state := Abandoned)), job := l.job.(abandoned := true)), Abandoning)
    else At(l, Releasing)
  }

  function DoCancelOp(l: Local): Local {
    At(CancelThroughOp(l), Releasing)
  }

  function DoReleaseKey(l: Local): Local {
    At(DropRef(l), Gone)
  }

  function DoDropValue(l: Local): Local
    requires l.job.owner.Resolved?
  {
    At(DropHandle(l), Consumed(l.job.owner.v))
  }

  // Shutdown takes the entries out of the table, cancels through each, and lets them go.

  function DoDrainEntry(l: Local): Local {
    l.(pend := false, canc := true, job := l.job.(drained := true))
  }

  function DoCancelEntry(l: Local): Local {
    CancelThroughOp(l.(job := l.job.(asked := true)))
  }

  function DoDropEntry(l: Local): Local {
    DropRef(l.(canc := false))
  }

  /** One atomic step. */
  function Effect(l: Local, act: Act): Local
    requires Enabled(l, act)
  {
    match act
    case LeakClone => DoLeakClone(l)
    case LeakInsert => DoLeakInsert(l)
    case PoolStart => DoPoolStart(l)
    case EnterOperate => DoEnterOperate(l)
    case Issue => DoIssue(l)
    case FinishInline(r) => DoFinishInline(l, r)
    case Unwind => DoUnwind(l)
    case ReturnPending => DoReturnPending(l)
    case Track => DoTrack(l)
    case Balance => DoBalance(l)
    case InlineHook => DoInlineHook(l)
    case UnleakClaim => DoUnleakClaim(l)
    case UnleakDrop => DoUnleakDrop(l)
    case UnwindDrop => DoUnwindDrop(l)
    case KernelWrite => DoKernelWrite(l)
    case KernelComplete(v) => DoKernelComplete(l, v)
    case Retrieve => DoRetrieve(l)
    case Claim => DoClaim(l)
    case Hook => DoHook(l)
    case WriteResult => DoWriteResult(l)
    case Publish => DoPublish(l)
    case TakeWaker => DoTakeWaker(l)
    case DropPublished => DoDropPublished(l)
    case Wake => DoWake(l)
    case Discard => DoDiscard(l)
    case StoreTerminal => DoStoreTerminal(l)
    case DropDiscarded => DoDropDiscarded(l)
    case CallbackReturn => DoCallbackReturn(l)
    case SetWaker(w, keep) => DoSetWaker(l, w, keep)
    case TakeCompletion => DoTakeCompletion(l)
    case ReadResult => DoReadResult(l)
    case TakeOp => DoTakeOp(l)
    case ReleaseResolved => DoReleaseResolved(l)
    case InlineTakeOp => DoInlineTakeOp(l)
    case InlineRelease => DoInlineRelease(l)
    case BeginDrop => DoBeginDrop(l)
    case Abandon => DoAbandon(l)
    case CancelOp => DoCancelOp(l)
    case ReleaseKey => DoReleaseKey(l)
    case DropValue => DoDropValue(l)
    case DrainEntry => DoDrainEntry(l)
    case CancelEntry => DoCancelEntry(l)
    case DropEntry => DoDropEntry(l)
  }
}
