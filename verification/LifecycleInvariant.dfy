/**
 What holds of one submission whatever the other actors do, and the proof that every
 atomic step of every actor keeps it.
 */
module LifecycleInvariant {
  import opened Wrappers
  import opened Lifecycle

  // ---------------------------------------------------------------- phases

  predicate PreStart(o: Owner) {
    o.Created? || o.Cloned? || o.Leaked? || o.PoolStarted? || o.Operating?
  }

  predicate InlinePhase(o: Owner) {
    o.StartedInline? || o.Balanced? || o.InlineHooked? || o.UnleakClaimed? || o.InlineIdle? || o.InlineTaken?
  }

  /** Still inside the `submit` call, which borrows the backend. */
  predicate InSubmit(o: Owner) {
    || PreStart(o) || o.Issued? || o.StartedPending? || o.Unwound?
    || o.StartedInline? || o.Balanced? || o.InlineHooked? || o.UnleakClaimed?
  }

  predicate Settled(o: Owner) {
    o.Resolved? || o.Consumed?
  }

  /** The kernel may still write to the record or to the buffers it owns. */
  predicate InKernel(k: Kernel) {
    k.Running? || k.Queued? || k.Retrieved?
  }

  /** The dispatcher has not reached its compare-exchange. */
  predicate Early(d: Dispatcher) {
    d.NotYet? || d.Claimed? || d.Hooked? || d.Wrote?
  }

  predicate Finished(d: Dispatcher) {
    d.Ended? || d.Returned?
  }

  /** The future won the terminal transition. */
  predicate Took(j: Job) {
    j.owner.Winning? || j.owner.ResultRead? || j.owner.OpTaken? || (Settled(j.owner) && !j.inlined)
  }

  predicate OpMoved(o: Owner) {
    o.OpTaken? || o.InlineTaken? || Settled(o)
  }

  // ---------------------------------------------------------------- holders

  predicate OwnerHolds(o: Owner) {
    !Settled(o) && !o.Gone?
  }

  /** A second reference inside `submit`: cloned but not yet leaked, or reclaimed but not yet dropped. */
  predicate FrameHolds(o: Owner) {
    o.Cloned? || o.UnleakClaimed?
  }

  predicate DispatcherHolds(d: Dispatcher) {
    !d.NotYet? && !d.Waking? && !Finished(d)
  }

  /** Everyone who holds a strong reference to the record. */
  function Holders(l: Local): nat {
    One(OwnerHolds(l.job.owner)) + One(FrameHolds(l.job.owner)) + One(l.live) + One(l.pend) + One(l.canc)
    + One(DispatcherHolds(l.job.disp))
  }

  /** The operation, and so its clone of the handle, still exists somewhere. */
  predicate HoldsHandle(j: Job) {
    (j.hist.frees == 0 && !OpMoved(j.owner)) || j.owner.OpTaken? || j.owner.InlineTaken? || j.owner.Resolved?
  }

  /** A thread-pool start that has been neither balanced nor answered by a returned callback. */
  predicate CallbackOwed(j: Job) {
    && j.backend.Pool?
    && (|| j.owner.PoolStarted? || j.owner.Operating? || j.owner.StartedInline?
        || InKernel(j.kernel) || (j.kernel.Delivered? && !j.disp.Returned?))
  }

  // ---------------------------------------------------------------- the invariant

  predicate PhaseInv(j: Job) {
    var o, k, d := j.owner, j.kernel, j.disp;
    && (PreStart(o) ==> !j.inlined && !j.unwound)
    && (InlinePhase(o) ==> j.inlined)
    && (j.inlined ==> InlinePhase(o) || Settled(o) || o.Releasing? || o.Gone?)
    && (j.unwound ==> !j.inlined && (o.Unwound? || o.Gone?))
    && (o.Unwound? ==> j.unwound)
    && (k.NotStarted? <==> PreStart(o) || j.inlined || j.unwound)
    && (d.NotYet? <==> !k.Delivered?)
    && ((o.PoolStarted? || o.Balanced?) ==> j.backend.Pool?)
    && (o.StartedPending? ==> j.backend.Driver?)
    && (j.backend.Driver? && (o.Issued? || o.StartedPending?) ==> (k.Running? || k.Queued?) && !j.drained)
    && (o.Issued? ==> d.NotYet? || d.Claimed?)
    && (k.Retrieved? ==> j.backend.Driver?)
    && (j.drained ==> j.backend.Driver? && !k.NotStarted?)
    && (d.Returned? ==> j.backend.Pool?)
  }

  /** How the two compare-exchanges divide the runs: abandoned before publication, or not. */
  predicate RaceInv(j: Job) {
    var o, k, d, a := j.owner, j.kernel, j.disp, j.abandoned;
    && (a ==> !k.NotStarted? && (o.Abandoning? || o.Releasing? || o.Gone?))
    && (o.Abandoning? ==> a)
    && (d.Published? || d.HasWaker? || d.Waking? ==> !a)
    && (d.Discarding? || d.Discarded? || d.Stored? ==> a)
    && (Took(j) ==> !Early(d))
    && (!a && !k.NotStarted? && (o.Releasing? || o.Gone?) ==> !Early(d))
  }

  /** The kernel's reference has been leaked and nobody has reclaimed it. */
  predicate IsLeaked(j: Job) {
    var o := j.owner;
    || o.Leaked? || o.PoolStarted? || o.Operating? || o.StartedInline? || o.Balanced? || o.InlineHooked?
    || InKernel(j.kernel) || j.unwound
  }

  /** It has been, by a dispatcher or by the submitter. */
  predicate Reclaimed(j: Job) {
    !j.owner.Created? && !j.owner.Cloned? && !IsLeaked(j)
  }

  predicate LiveInv(l: Local) {
    l.live <==> IsLeaked(l.job)
  }

  /** The pending table lists exactly the tracked operations whose packet has not been retrieved. */
  predicate TableInv(l: Local) {
    var j := l.job;
    && (l.pend <==> && j.backend.Driver? && (j.kernel.Running? || j.kernel.Queued?) && !j.drained
                    && !j.owner.Issued? && !j.owner.StartedPending?)
    && (l.canc ==> j.drained)
  }

  predicate CountInv(l: Local) {
    && (l.rec.None? <==> Holders(l) == 0)
    && (l.rec.Some? ==> l.rec.value.strong == Holders(l))
    && l.job.hist.frees == One(l.rec.None?)
  }

  function ExpectedState(j: Job): OpState {
    if j.abandoned then (if j.disp.Stored? || Finished(j.disp) then Terminal else Abandoned)
    else if Early(j.disp) then Submitted
    else if Took(j) then Terminal
    else Completed
  }

  /** The result cell is written and not yet moved out. */
  predicate SlotLive(j: Job) {
    j.disp.Wrote? || j.disp.Discarding? || j.owner.Winning? || ExpectedState(j) == Completed
  }

  predicate RecInv(j: Job, r: Rec) {
    && r.state == ExpectedState(j)
    && r.slot == (if SlotLive(j) then j.hist.value else None)
    && r.op == (if OpMoved(j.owner) then None else Some(j.handle))
    && r.locked == (j.owner.Operating? || j.owner.Issued?)
    && (j.owner.Armed? && Early(j.disp) ==> r.waker.Some? && r.waker.value.task == j.owner.w.task)
    && (j.owner.Idle? && j.owner.last.Some? && Early(j.disp) ==>
          r.waker.Some? && r.waker.value.task == j.owner.last.value.task)
  }

  /** A completer is still going to signal this task. */
  predicate BoundToWake(l: Local, task: nat) {
    var d := l.job.disp;
    || (d.Published? && l.rec.Some? && l.rec.value.waker.Some? && l.rec.value.waker.value.task == task)
    || (d.HasWaker? && d.w.Some? && d.w.value.task == task)
    || (d.Waking? && d.w.Some? && d.w.value.task == task)
  }

  predicate WakeInv(l: Local) {
    var j := l.job;
    && (j.abandoned ==> j.hist.wakes == 0)
    && j.hist.wakes <= One(Finished(j.disp))
    && (j.owner.Idle? && j.owner.last.Some? && !Early(j.disp) ==>
          j.hist.woken || BoundToWake(l, j.owner.last.value.task))
  }

  predicate HistoryInv(l: Local) {
    var j := l.job;
    var o, k, d, h := j.owner, j.kernel, j.disp, j.hist;
    && (h.value.Some? <==> j.inlined || (!k.NotStarted? && !k.Running?))
    && (k.Queued? || k.Retrieved? ==> h.value == Some(k.v))
    && (d.Claimed? || d.Hooked? ==> h.value == Some(d.v))
    && (o.ResultRead? || o.OpTaken? || Settled(o) ==> h.value == Some(o.v))
    && (InlinePhase(o) ==> h.value == Some(o.r))
    && h.writes == One(!d.NotYet? && !d.Claimed? && !d.Hooked?)
    && h.taken == One(Took(j) && !o.Winning?)
    && h.discarded == One(d.Discarded? || d.Stored? || (Finished(d) && j.abandoned))
    && h.dropped == One(l.rec.None? && !Early(d) && !j.abandoned && !Took(j))
    && h.moves == One(OpMoved(o))
    && (!j.inlined ==> h.hooks == One(!d.NotYet? && !d.Claimed?))
    && (j.inlined ==> h.hooks <= 1)
    && (o.StartedInline? || o.Balanced? ==> h.hooks == 0)
    && (o.InlineHooked? ==> h.hooks == 1 && o.r.Done?)
    && (o.UnleakClaimed? || o.InlineIdle? || o.InlineTaken? ==> h.hooks == One(o.r.Done?))
    && (Settled(o) && j.inlined ==> h.hooks == One(o.v.Done?))
  }

  predicate LocalInv(l: Local) {
    && PhaseInv(l.job)
    && RaceInv(l.job)
    && LiveInv(l)
    && TableInv(l)
    && CountInv(l)
    && (l.rec.Some? ==> RecInv(l.job, l.rec.value))
    && WakeInv(l)
    && HistoryInv(l)
  }

  /** What one submission may assume of the handle cell it shares with others. */
  predicate HandleFacts(l: Local) {
    HoldsHandle(l.job) ==> l.refs >= 1 && l.closes == 0
  }

  /** The obligation of one step: keep the invariant, raise no fault, and change the shared
      handle count and the pool's pending count by exactly what this submission's holdings changed. */
  predicate Kept(l: Local, l': Local) {
    && LocalInv(l')
    && l'.fault == l.fault
    && l'.refs - l.refs == One(HoldsHandle(l'.job)) - One(HoldsHandle(l.job))
    && l'.closes == l.closes + One(l.refs > 0 && l'.refs == 0)
    && l'.pool - l.pool == One(CallbackOwed(l'.job)) - One(CallbackOwed(l.job))
    && (l.rec.Some? && l'.rec.Some? ==> l'.rec.value.id == l.rec.value.id)
    && (InSubmit(l'.job.owner) ==> InSubmit(l.job.owner))
    && (HoldsHandle(l'.job) ==> HoldsHandle(l.job))
    && l'.job.hist.frees >= l.job.hist.frees
    && (Reclaimed(l.job) ==> Reclaimed(l'.job))
    && (CallbackOwed(l'.job) ==> CallbackOwed(l.job) || InSubmit(l.job.owner))
    && l'.job.addr == l.job.addr && l'.job.handle == l.job.handle && l'.job.backend == l.job.backend
  }

  /** Past the last poll: what a future goes through when it is dropped. */
  predicate Leaving(o: Owner) {
    o.Dropping? || o.Abandoning? || o.Releasing? || o.Gone?
  }

  /** The same poll is the latest. */
  predicate StillPending(o: Owner, o': Owner) {
    o.Idle? && o'.Idle? && o'.last == o.last
  }

  /** This step wakes the task whose poll is still pending. */
  predicate WakesPendingTask(j: Job, act: Act) {
    && act.Wake? && j.owner.Idle? && j.owner.last.Some?
    && j.disp.Waking? && j.disp.w.Some? && j.disp.w.value.task == j.owner.last.value.task
  }

  /** Where things come from.  A key is let go after abandonment only where it already was, or by the cancelling step;
      the same for a table entry that has been asked to cancel.  A status comes from Windows.  The mark of a signal
      comes from waking the pending poll's own task, and the next poll takes it away. */
  predicate Caused(j: Job, act: Act, j': Job) {
    && (j'.abandoned && j'.owner.Releasing? ==> act.CancelOp? || (j.abandoned && j.owner.Releasing?))
    && (j'.asked ==> act.CancelEntry? || j.asked)
    && (j'.hist.value.Some? && j'.hist.value != j.hist.value ==>
          act == KernelComplete(j'.hist.value.value) || act == FinishInline(j'.hist.value.value))
    && (j'.hist.woken && !j.hist.woken ==> WakesPendingTask(j, act) && StillPending(j.owner, j'.owner))
    && (j'.hist.woken && (j.owner.Idle? || Leaving(j.owner)) ==> StillPending(j.owner, j'.owner) || Leaving(j'.owner))
  }

  /** A state one submission can be in, seen together with the handle cell it shares. */
  predicate Sound(l: Local) {
    LocalInv(l) && HandleFacts(l)
  }

  predicate LastRef(l: Local) {
    l.rec.Some? && l.rec.value.strong == 1
  }

  // ---------------------------------------------------------------- step by step

  lemma LeakCloneKept(l: Local)
    requires Sound(l) && l.job.owner.Created?
    ensures Kept(l, DoLeakClone(l)) && Caused(l.job, LeakClone, DoLeakClone(l).job)
  {
  }

  lemma LeakInsertKept(l: Local)
    requires Sound(l) && l.job.owner.Cloned?
    ensures Kept(l, DoLeakInsert(l)) && Caused(l.job, LeakInsert, DoLeakInsert(l).job)
  {
  }

  lemma PoolStartKept(l: Local)
    requires Sound(l) && l.job.owner.Leaked? && l.job.backend.Pool?
    ensures Kept(l, DoPoolStart(l)) && Caused(l.job, PoolStart, DoPoolStart(l).job)
  {
  }

  lemma EnterOperateKept(l: Local)
    requires Sound(l) && (if l.job.backend.Pool? then l.job.owner.PoolStarted? else l.job.owner.Leaked?)
    ensures Kept(l, DoEnterOperate(l)) && Caused(l.job, EnterOperate, DoEnterOperate(l).job)
  {
  }

  lemma IssueKept(l: Local)
    requires Sound(l) && l.job.owner.Operating?
    ensures Kept(l, DoIssue(l)) && Caused(l.job, Issue, DoIssue(l).job)
  {
  }

  lemma FinishInlineKept(l: Local, r: Outcome)
    requires Sound(l) && l.job.owner.Operating?
    ensures Kept(l, DoFinishInline(l, r))
  {
  }

  lemma FinishInlineCaused(l: Local, r: Outcome)
    requires l.job.owner.Operating?
    ensures Caused(l.job, FinishInline(r), DoFinishInline(l, r).job)
  {
  }

  lemma UnwindKept(l: Local)
    requires Sound(l) && l.job.owner.Operating?
    ensures Kept(l, DoUnwind(l)) && Caused(l.job, Unwind, DoUnwind(l).job)
  {
  }

  lemma ReturnPendingPoolHistory(l: Local)
    requires Sound(l) && l.job.owner.Issued?
    requires l.job.backend.Pool?
    ensures HistoryInv(DoReturnPending(l)) && WakeInv(DoReturnPending(l))
  {
    hide CountInv, LiveInv, TableInv;
  }

  lemma ReturnPendingPoolKept(l: Local)
    requires Sound(l) && l.job.owner.Issued?
    requires l.job.backend.Pool?
    ensures Kept(l, DoReturnPending(l)) && Caused(l.job, ReturnPending, DoReturnPending(l).job)
  {
    ReturnPendingPoolHistory(l);
    hide HistoryInv, WakeInv;
  }

  lemma ReturnPendingDriverKept(l: Local)
    requires Sound(l) && l.job.owner.Issued?
    requires l.job.backend.Driver?
    ensures Kept(l, DoReturnPending(l)) && Caused(l.job, ReturnPending, DoReturnPending(l).job)
  {
  }

  lemma TrackKept(l: Local)
    requires Sound(l) && l.job.owner.StartedPending?
    ensures Kept(l, DoTrack(l)) && Caused(l.job, Track, DoTrack(l).job)
  {
  }

  lemma BalanceKept(l: Local)
    requires Sound(l) && l.job.owner.StartedInline? && l.job.backend.Pool?
    ensures Kept(l, DoBalance(l)) && Caused(l.job, Balance, DoBalance(l).job)
  {
  }

  lemma InlineHookKept(l: Local)
    requires Sound(l) && (if l.job.backend.Pool? then l.job.owner.Balanced? else l.job.owner.StartedInline?)
    requires l.job.owner.r.Done?
    ensures Kept(l, DoInlineHook(l))
  {
  }

  lemma InlineHookCaused(l: Local)
    requires l.job.owner.StartedInline? || l.job.owner.Balanced?
    ensures Caused(l.job, InlineHook, DoInlineHook(l).job)
  {
  }

  lemma UnleakClaimKept(l: Local)
    requires Sound(l)
    requires || l.job.owner.InlineHooked?
             || ((if l.job.backend.Pool? then l.job.owner.Balanced? else l.job.owner.StartedInline?)
                 && l.job.owner.r.Failed?)
    ensures Kept(l, DoUnleakClaim(l)) && Caused(l.job, UnleakClaim, DoUnleakClaim(l).job)
  {
  }

  lemma UnleakDropKept(l: Local)
    requires Sound(l) && l.job.owner.UnleakClaimed?
    ensures Kept(l, DoUnleakDrop(l)) && Caused(l.job, UnleakDrop, DoUnleakDrop(l).job)
  {
  }

  lemma UnwindDropKept(l: Local)
    requires Sound(l) && l.job.owner.Unwound?
    ensures Kept(l, DoUnwindDrop(l)) && Caused(l.job, UnwindDrop, DoUnwindDrop(l).job)
  {
  }

  lemma KernelWriteKept(l: Local)
    requires Sound(l) && l.job.kernel.Running?
    ensures Kept(l, DoKernelWrite(l)) && Caused(l.job, KernelWrite, DoKernelWrite(l).job)
  {
  }

  lemma KernelCompleteKept(l: Local, v: Outcome)
    requires Sound(l) && l.job.kernel.Running?
    ensures Kept(l, DoKernelComplete(l, v))
  {
  }

  lemma KernelCompleteCaused(l: Local, v: Outcome)
    ensures Caused(l.job, KernelComplete(v), DoKernelComplete(l, v).job)
  {
  }

  lemma RetrieveKept(l: Local)
    requires Sound(l) && l.job.kernel.Queued? && l.job.backend.Driver?
    requires !l.job.owner.Issued? && !l.job.owner.StartedPending?
    ensures Kept(l, DoRetrieve(l)) && Caused(l.job, Retrieve, DoRetrieve(l).job)
  {
  }

  lemma ClaimKept(l: Local)
    requires Sound(l) && (if l.job.backend.Pool? then l.job.kernel.Queued? else l.job.kernel.Retrieved?)
    ensures Kept(l, DoClaim(l)) && Caused(l.job, Claim, DoClaim(l).job)
  {
  }

  lemma HookKept(l: Local)
    requires Sound(l) && l.job.disp.Claimed? && Unlocked(l)
    ensures Kept(l, DoHook(l)) && Caused(l.job, Hook, DoHook(l).job)
  {
  }

  lemma WriteResultAbandonedHistory(l: Local)
    requires Sound(l) && l.job.disp.Hooked?
    requires l.job.abandoned
    ensures HistoryInv(DoWriteResult(l)) && WakeInv(DoWriteResult(l))
  {
    hide CountInv, LiveInv, TableInv;
  }

  lemma WriteResultAbandonedKept(l: Local)
    requires Sound(l) && l.job.disp.Hooked?
    requires l.job.abandoned
    ensures Kept(l, DoWriteResult(l)) && Caused(l.job, WriteResult, DoWriteResult(l).job)
  {
    WriteResultAbandonedHistory(l);
    hide HistoryInv, WakeInv;
  }

  lemma WriteResultWantedKept(l: Local)
    requires Sound(l) && l.job.disp.Hooked?
    requires !l.job.abandoned
    ensures Kept(l, DoWriteResult(l)) && Caused(l.job, WriteResult, DoWriteResult(l).job)
  {
  }

  lemma PublishLosesKept(l: Local)
    requires Sound(l) && l.job.disp.Wrote? && l.job.abandoned
    ensures Kept(l, DoPublish(l)) && Caused(l.job, Publish, DoPublish(l).job)
  {
  }

  lemma PublishWinsKept(l: Local)
    requires Sound(l) && l.job.disp.Wrote? && !l.job.abandoned
    ensures Kept(l, DoPublish(l)) && Caused(l.job, Publish, DoPublish(l).job)
  {
  }

  lemma TakeWakerKept(l: Local)
    requires Sound(l) && l.job.disp.Published?
    ensures Kept(l, DoTakeWaker(l)) && Caused(l.job, TakeWaker, DoTakeWaker(l).job)
  {
  }

  lemma DropPublishedLastKept(l: Local)
    requires Sound(l) && l.job.disp.HasWaker? && LastRef(l)
    ensures Kept(l, DoDropPublished(l)) && Caused(l.job, DropPublished, DoDropPublished(l).job)
  {
  }

  lemma DropPublishedSharedKept(l: Local)
    requires Sound(l) && l.job.disp.HasWaker? && !LastRef(l)
    ensures Kept(l, DoDropPublished(l)) && Caused(l.job, DropPublished, DoDropPublished(l).job)
  {
  }

  lemma WakeNobodyKept(l: Local)
    requires Sound(l) && l.job.disp.Waking? && l.job.disp.w.None?
    ensures Kept(l, DoWake(l)) && Caused(l.job, Wake, DoWake(l).job)
  {
  }

  lemma WakeSomebodyKept(l: Local)
    requires Sound(l) && l.job.disp.Waking? && l.job.disp.w.Some?
    ensures Kept(l, DoWake(l)) && Caused(l.job, Wake, DoWake(l).job)
  {
  }

  lemma DiscardHistory(l: Local)
    requires Sound(l) && l.job.disp.Discarding?
    ensures HistoryInv(DoDiscard(l)) && WakeInv(DoDiscard(l))
  {
    hide CountInv, LiveInv, TableInv;
  }

  lemma DiscardKept(l: Local)
    requires Sound(l) && l.job.disp.Discarding?
    ensures Kept(l, DoDiscard(l)) && Caused(l.job, Discard, DoDiscard(l).job)
  {
    DiscardHistory(l);
    hide HistoryInv, WakeInv;
  }

  lemma StoreTerminalKept(l: Local)
    requires Sound(l) && l.job.disp.Discarded?
    ensures Kept(l, DoStoreTerminal(l)) && Caused(l.job, StoreTerminal, DoStoreTerminal(l).job)
  {
  }

  lemma DropDiscardedLastKept(l: Local)
    requires Sound(l) && l.job.disp.Stored? && LastRef(l)
    ensures Kept(l, DoDropDiscarded(l)) && Caused(l.job, DropDiscarded, DoDropDiscarded(l).job)
  {
  }

  lemma DropDiscardedSharedKept(l: Local)
    requires Sound(l) && l.job.disp.Stored? && !LastRef(l)
    ensures Kept(l, DoDropDiscarded(l)) && Caused(l.job, DropDiscarded, DoDropDiscarded(l).job)
  {
  }

  lemma CallbackReturnKept(l: Local)
    requires Sound(l) && l.job.disp.Ended? && l.job.backend.Pool?
    ensures Kept(l, DoCallbackReturn(l)) && Caused(l.job, CallbackReturn, DoCallbackReturn(l).job)
  {
  }

  lemma SetWakerKeepKept(l: Local, w: Waker, keep: bool)
    requires Sound(l) && l.job.owner.Idle? && keep && Early(l.job.disp)
    requires l.rec.Some? && l.rec.value.waker.Some? && l.rec.value.waker.value.task == w.task
    ensures Kept(l, DoSetWaker(l, w, keep)) && Caused(l.job, SetWaker(w, keep), DoSetWaker(l, w, keep).job)
  {
  }

  lemma SetWakerReplaceAloneHistory(l: Local, w: Waker, keep: bool)
    requires Sound(l) && l.job.owner.Idle? && !keep && Early(l.job.disp)
    requires l.job.disp.NotYet?
    ensures HistoryInv(DoSetWaker(l, w, keep)) && WakeInv(DoSetWaker(l, w, keep))
  {
    hide CountInv, LiveInv, TableInv;
  }

  lemma SetWakerReplaceAloneKept(l: Local, w: Waker, keep: bool)
    requires Sound(l) && l.job.owner.Idle? && !keep && Early(l.job.disp)
    requires l.job.disp.NotYet?
    ensures Kept(l, DoSetWaker(l, w, keep)) && Caused(l.job, SetWaker(w, keep), DoSetWaker(l, w, keep).job)
  {
    SetWakerReplaceAloneHistory(l, w, keep);
    hide HistoryInv, WakeInv;
  }

  lemma SetWakerReplaceRacedKept(l: Local, w: Waker, keep: bool)
    requires Sound(l) && l.job.owner.Idle? && !keep && Early(l.job.disp)
    requires !l.job.disp.NotYet?
    ensures Kept(l, DoSetWaker(l, w, keep)) && Caused(l.job, SetWaker(w, keep), DoSetWaker(l, w, keep).job)
  {
  }

  lemma SetWakerLateKept(l: Local, w: Waker, keep: bool)
    requires Sound(l) && l.job.owner.Idle? && !Early(l.job.disp)
    requires keep ==> l.rec.Some? && l.rec.value.waker.Some? && l.rec.value.waker.value.task == w.task
    ensures Kept(l, DoSetWaker(l, w, keep)) && Caused(l.job, SetWaker(w, keep), DoSetWaker(l, w, keep).job)
  {
  }

  lemma TakeCompletionPendingAloneHistory(l: Local)
    requires Sound(l) && l.job.owner.Armed? && Early(l.job.disp)
    requires l.job.disp.NotYet?
    ensures HistoryInv(DoTakeCompletion(l)) && WakeInv(DoTakeCompletion(l))
  {
    hide CountInv, LiveInv, TableInv;
  }

  lemma TakeCompletionPendingAloneKept(l: Local)
    requires Sound(l) && l.job.owner.Armed? && Early(l.job.disp)
    requires l.job.disp.NotYet?
    ensures Kept(l, DoTakeCompletion(l)) && Caused(l.job, TakeCompletion, DoTakeCompletion(l).job)
  {
    TakeCompletionPendingAloneHistory(l);
    hide HistoryInv, WakeInv;
  }

  lemma TakeCompletionPendingRacedKept(l: Local)
    requires Sound(l) && l.job.owner.Armed? && Early(l.job.disp)
    requires !l.job.disp.NotYet?
    ensures Kept(l, DoTakeCompletion(l)) && Caused(l.job, TakeCompletion, DoTakeCompletion(l).job)
  {
  }

  lemma TakeCompletionWinsKept(l: Local)
    requires Sound(l) && l.job.owner.Armed? && !Early(l.job.disp)
    ensures Kept(l, DoTakeCompletion(l)) && Caused(l.job, TakeCompletion, DoTakeCompletion(l).job)
  {
  }

  lemma ReadResultKept(l: Local)
    requires Sound(l) && l.job.owner.Winning?
    ensures Kept(l, DoReadResult(l)) && Caused(l.job, ReadResult, DoReadResult(l).job)
  {
  }

  lemma TakeOpKept(l: Local)
    requires Sound(l) && l.job.owner.ResultRead?
    ensures Kept(l, DoTakeOp(l)) && Caused(l.job, TakeOp, DoTakeOp(l).job)
  {
  }

  lemma ReleaseResolvedLastKept(l: Local)
    requires Sound(l) && l.job.owner.OpTaken? && LastRef(l)
    ensures Kept(l, DoReleaseResolved(l)) && Caused(l.job, ReleaseResolved, DoReleaseResolved(l).job)
  {
  }

  lemma ReleaseResolvedSharedKept(l: Local)
    requires Sound(l) && l.job.owner.OpTaken? && !LastRef(l)
    ensures Kept(l, DoReleaseResolved(l)) && Caused(l.job, ReleaseResolved, DoReleaseResolved(l).job)
  {
  }

  lemma InlineTakeOpKept(l: Local)
    requires Sound(l) && l.job.owner.InlineIdle?
    ensures Kept(l, DoInlineTakeOp(l)) && Caused(l.job, InlineTakeOp, DoInlineTakeOp(l).job)
  {
  }

  lemma InlineReleaseKept(l: Local)
    requires Sound(l) && l.job.owner.InlineTaken?
    ensures Kept(l, DoInlineRelease(l)) && Caused(l.job, InlineRelease, DoInlineRelease(l).job)
  {
  }

  lemma BeginDropInlineKept(l: Local)
    requires Sound(l) && l.job.owner.InlineIdle?
    ensures Kept(l, DoBeginDrop(l)) && Caused(l.job, BeginDrop, DoBeginDrop(l).job)
  {
  }

  lemma BeginDropPendingHistory(l: Local)
    requires Sound(l) && l.job.owner.Idle?
    ensures HistoryInv(DoBeginDrop(l)) && WakeInv(DoBeginDrop(l))
  {
    hide CountInv, LiveInv, TableInv;
  }

  lemma BeginDropPendingKept(l: Local)
    requires Sound(l) && l.job.owner.Idle?
    ensures Kept(l, DoBeginDrop(l)) && Caused(l.job, BeginDrop, DoBeginDrop(l).job)
  {
    BeginDropPendingHistory(l);
    hide HistoryInv, WakeInv;
  }

  lemma AbandonWinsAlonePoolKept(l: Local)
    requires Sound(l) && l.job.owner.Dropping? && l.job.disp.NotYet?
    requires l.job.backend.Pool?
    ensures Kept(l, DoAbandon(l)) && Caused(l.job, Abandon, DoAbandon(l).job)
  {
  }

  lemma AbandonWinsAloneDriverHistory(l: Local)
    requires Sound(l) && l.job.owner.Dropping? && l.job.disp.NotYet?
    requires l.job.backend.Driver?
    ensures HistoryInv(DoAbandon(l)) && WakeInv(DoAbandon(l))
  {
    hide CountInv, LiveInv, TableInv;
  }

  lemma AbandonWinsAloneDriverKept(l: Local)
    requires Sound(l) && l.job.owner.Dropping? && l.job.disp.NotYet?
    requires l.job.backend.Driver?
    ensures Kept(l, DoAbandon(l)) && Caused(l.job, Abandon, DoAbandon(l).job)
  {
    AbandonWinsAloneDriverHistory(l);
    hide HistoryInv, WakeInv;
  }

  lemma AbandonWinsEarlyHistory(l: Local)
    requires Sound(l) && l.job.owner.Dropping? && (l.job.disp.Claimed? || l.job.disp.Hooked?)
    ensures HistoryInv(DoAbandon(l)) && WakeInv(DoAbandon(l))
  {
    hide CountInv, LiveInv, TableInv;
  }

  lemma AbandonWinsEarlyKept(l: Local)
    requires Sound(l) && l.job.owner.Dropping? && (l.job.disp.Claimed? || l.job.disp.Hooked?)
    ensures Kept(l, DoAbandon(l)) && Caused(l.job, Abandon, DoAbandon(l).job)
  {
    AbandonWinsEarlyHistory(l);
    hide HistoryInv, WakeInv;
  }

  lemma AbandonWinsLateKept(l: Local)
    requires Sound(l) && l.job.owner.Dropping? && l.job.disp.Wrote?
    ensures Kept(l, DoAbandon(l)) && Caused(l.job, Abandon, DoAbandon(l).job)
  {
  }

  lemma AbandonLosesHistory(l: Local)
    requires Sound(l) && l.job.owner.Dropping? && !Early(l.job.disp)
    ensures HistoryInv(DoAbandon(l)) && WakeInv(DoAbandon(l))
  {
    hide CountInv, LiveInv, TableInv;
  }

  lemma AbandonLosesKept(l: Local)
    requires Sound(l) && l.job.owner.Dropping? && !Early(l.job.disp)
    ensures Kept(l, DoAbandon(l)) && Caused(l.job, Abandon, DoAbandon(l).job)
  {
    AbandonLosesHistory(l);
    hide HistoryInv, WakeInv;
  }

  lemma CancelOpKept(l: Local)
    requires Sound(l) && l.job.owner.Abandoning?
    ensures Kept(l, DoCancelOp(l)) && Caused(l.job, CancelOp, DoCancelOp(l).job)
  {
  }

  lemma ReleaseKeyInlineKept(l: Local)
    requires Sound(l) && l.job.owner.Releasing?
    requires l.job.inlined
    ensures Kept(l, DoReleaseKey(l))
  {
  }

  lemma ReleaseKeyInlineCaused(l: Local)
    requires Sound(l) && l.job.owner.Releasing?
    ensures Caused(l.job, ReleaseKey, DoReleaseKey(l).job)
  {
    hide LiveInv, TableInv, RecInv, WakeInv, HistoryInv;
  }

  lemma ReleaseKeyLastAbandonedKept(l: Local)
    requires Sound(l) && l.job.owner.Releasing? && LastRef(l)
    requires !l.job.inlined && l.job.abandoned
    ensures Kept(l, DoReleaseKey(l)) && Caused(l.job, ReleaseKey, DoReleaseKey(l).job)
  {
  }

  lemma ReleaseKeyLastLateKept(l: Local)
    requires Sound(l) && l.job.owner.Releasing? && LastRef(l)
    requires !l.job.inlined && !l.job.abandoned
    ensures Kept(l, DoReleaseKey(l)) && Caused(l.job, ReleaseKey, DoReleaseKey(l).job)
  {
  }

  lemma ReleaseKeySharedAbandonedHistory(l: Local)
    requires Sound(l) && l.job.owner.Releasing? && !LastRef(l)
    requires !l.job.inlined && l.job.abandoned
    ensures HistoryInv(DoReleaseKey(l)) && WakeInv(DoReleaseKey(l))
  {
    hide CountInv, LiveInv, TableInv;
  }

  lemma ReleaseKeySharedAbandonedKept(l: Local)
    requires Sound(l) && l.job.owner.Releasing? && !LastRef(l)
    requires !l.job.inlined && l.job.abandoned
    ensures Kept(l, DoReleaseKey(l)) && Caused(l.job, ReleaseKey, DoReleaseKey(l).job)
  {
    ReleaseKeySharedAbandonedHistory(l);
    hide HistoryInv, WakeInv;
  }

  lemma ReleaseKeySharedLateKept(l: Local)
    requires Sound(l) && l.job.owner.Releasing? && !LastRef(l)
    requires !l.job.inlined && !l.job.abandoned
    ensures Kept(l, DoReleaseKey(l)) && Caused(l.job, ReleaseKey, DoReleaseKey(l).job)
  {
  }

  lemma DropValueKept(l: Local)
    requires Sound(l) && l.job.owner.Resolved?
    ensures Kept(l, DoDropValue(l)) && Caused(l.job, DropValue, DoDropValue(l).job)
  {
  }

  lemma DrainEntryKept(l: Local)
    requires Sound(l) && l.pend
    ensures Kept(l, DoDrainEntry(l)) && Caused(l.job, DrainEntry, DoDrainEntry(l).job)
  {
  }

  lemma CancelEntryKept(l: Local)
    requires Sound(l) && l.canc
    ensures Kept(l, DoCancelEntry(l)) && Caused(l.job, CancelEntry, DoCancelEntry(l).job)
  {
  }

  lemma DropEntryLastKept(l: Local)
    requires Sound(l) && l.canc && LastRef(l)
    ensures Kept(l, DoDropEntry(l)) && Caused(l.job, DropEntry, DoDropEntry(l).job)
  {
  }

  lemma DropEntrySharedKept(l: Local)
    requires Sound(l) && l.canc && !LastRef(l)
    ensures Kept(l, DoDropEntry(l)) && Caused(l.job, DropEntry, DoDropEntry(l).job)
  {
  }

  lemma SubmitKept(l: Local, act: Act)
    requires Sound(l) && Enabled(l, act)
    requires act.LeakClone? || act.LeakInsert? || act.PoolStart? || act.EnterOperate? || act.Issue? ||
             act.FinishInline? || act.Unwind?
    ensures Kept(l, Effect(l, act))
    ensures Caused(l.job, act, Effect(l, act).job)
  {
    hide LocalInv, HandleFacts, Kept, Caused;
    match act
    case LeakClone => LeakCloneKept(l);
    case LeakInsert => LeakInsertKept(l);
    case PoolStart => PoolStartKept(l);
    case EnterOperate => EnterOperateKept(l);
    case Issue => IssueKept(l);
    case FinishInline(r) =>
      FinishInlineKept(l, r);
      FinishInlineCaused(l, r);
    case Unwind => UnwindKept(l);
  }

  lemma ReturnKept(l: Local, act: Act)
    requires Sound(l) && Enabled(l, act)
    requires act.ReturnPending? || act.Track? || act.Balance? || act.InlineHook? || act.UnleakClaim? ||
             act.UnleakDrop? || act.UnwindDrop?
    ensures Kept(l, Effect(l, act))
    ensures Caused(l.job, act, Effect(l, act).job)
  {
    hide LocalInv, HandleFacts, Kept, Caused;
    match act
    case ReturnPending =>
      if l.job.backend.Pool? { ReturnPendingPoolKept(l); }
      else { ReturnPendingDriverKept(l); }
    case Track => TrackKept(l);
    case Balance => BalanceKept(l);
    case InlineHook =>
      InlineHookKept(l);
      InlineHookCaused(l);
    case UnleakClaim => UnleakClaimKept(l);
    case UnleakDrop => UnleakDropKept(l);
    case UnwindDrop => UnwindDropKept(l);
  }

  lemma CompleteKept(l: Local, act: Act)
    requires Sound(l) && Enabled(l, act)
    requires act.KernelWrite? || act.KernelComplete? || act.Retrieve? || act.Claim? || act.Hook? ||
             act.WriteResult? || act.Publish?
    ensures Kept(l, Effect(l, act))
    ensures Caused(l.job, act, Effect(l, act).job)
  {
    hide LocalInv, HandleFacts, Kept, Caused;
    match act
    case KernelWrite => KernelWriteKept(l);
    case KernelComplete(v) =>
      KernelCompleteKept(l, v);
      KernelCompleteCaused(l, v);
    case Retrieve => RetrieveKept(l);
    case Claim => ClaimKept(l);
    case Hook => HookKept(l);
    case WriteResult =>
      if l.job.abandoned { WriteResultAbandonedKept(l); }
      else { WriteResultWantedKept(l); }
    case Publish =>
      if l.job.abandoned { PublishLosesKept(l); }
      else { PublishWinsKept(l); }
  }

  lemma DispatchKept(l: Local, act: Act)
    requires Sound(l) && Enabled(l, act)
    requires act.TakeWaker? || act.DropPublished? || act.Wake? || act.Discard? || act.StoreTerminal? ||
             act.DropDiscarded? || act.CallbackReturn?
    ensures Kept(l, Effect(l, act))
    ensures Caused(l.job, act, Effect(l, act).job)
  {
    hide LocalInv, HandleFacts, Kept, Caused;
    match act
    case TakeWaker => TakeWakerKept(l);
    case DropPublished =>
      if LastRef(l) { DropPublishedLastKept(l); }
      else { DropPublishedSharedKept(l); }
    case Wake =>
      if l.job.disp.w.None? { WakeNobodyKept(l); }
      else { WakeSomebodyKept(l); }
    case Discard => DiscardKept(l);
    case StoreTerminal => StoreTerminalKept(l);
    case DropDiscarded =>
      if LastRef(l) { DropDiscardedLastKept(l); }
      else { DropDiscardedSharedKept(l); }
    case CallbackReturn => CallbackReturnKept(l);
  }

  lemma PollKept(l: Local, act: Act)
    requires Sound(l) && Enabled(l, act)
    requires act.SetWaker? || act.TakeCompletion? || act.ReadResult? || act.TakeOp? || act.ReleaseResolved? ||
             act.InlineTakeOp? || act.InlineRelease?
    ensures Kept(l, Effect(l, act))
    ensures Caused(l.job, act, Effect(l, act).job)
  {
    hide LocalInv, HandleFacts, Kept, Caused;
    match act
    case SetWaker(w, keep) =>
      if keep && Early(l.job.disp) { SetWakerKeepKept(l, w, keep); }
      else if !keep && l.job.disp.NotYet? { SetWakerReplaceAloneKept(l, w, keep); }
      else if !keep && Early(l.job.disp) { SetWakerReplaceRacedKept(l, w, keep); }
      else { SetWakerLateKept(l, w, keep); }
    case TakeCompletion =>
      if l.job.disp.NotYet? { TakeCompletionPendingAloneKept(l); }
      else if Early(l.job.disp) { TakeCompletionPendingRacedKept(l); }
      else { TakeCompletionWinsKept(l); }
    case ReadResult => ReadResultKept(l);
    case TakeOp => TakeOpKept(l);
    case ReleaseResolved =>
      if LastRef(l) { ReleaseResolvedLastKept(l); }
      else { ReleaseResolvedSharedKept(l); }
    case InlineTakeOp => InlineTakeOpKept(l);
    case InlineRelease => InlineReleaseKept(l);
  }

  lemma DropKept(l: Local, act: Act)
    requires Sound(l) && Enabled(l, act)
    requires act.BeginDrop? || act.Abandon? || act.CancelOp? || act.ReleaseKey?
    ensures Kept(l, Effect(l, act))
    ensures Caused(l.job, act, Effect(l, act).job)
  {
    hide LocalInv, HandleFacts, Kept, Caused;
    match act
    case BeginDrop =>
      if l.job.owner.InlineIdle? { BeginDropInlineKept(l); }
      else { BeginDropPendingKept(l); }
    case Abandon =>
      if l.job.disp.NotYet? && l.job.backend.Pool? { AbandonWinsAlonePoolKept(l); }
      else if l.job.disp.NotYet? { AbandonWinsAloneDriverKept(l); }
      else if (l.job.disp.Claimed? || l.job.disp.Hooked?) { AbandonWinsEarlyKept(l); }
      else if l.job.disp.Wrote? { AbandonWinsLateKept(l); }
      else { AbandonLosesKept(l); }
    case CancelOp => CancelOpKept(l);
    case ReleaseKey =>
      if l.job.inlined {
        ReleaseKeyInlineKept(l);
        ReleaseKeyInlineCaused(l);
      } else if LastRef(l) && l.job.abandoned { ReleaseKeyLastAbandonedKept(l); }
      else if LastRef(l) { ReleaseKeyLastLateKept(l); }
      else if l.job.abandoned { ReleaseKeySharedAbandonedKept(l); }
      else { ReleaseKeySharedLateKept(l); }
  }

  lemma LetGoKept(l: Local, act: Act)
    requires Sound(l) && Enabled(l, act)
    requires act.DropValue? || act.DrainEntry? || act.CancelEntry? || act.DropEntry?
    ensures Kept(l, Effect(l, act))
    ensures Caused(l.job, act, Effect(l, act).job)
  {
    hide LocalInv, HandleFacts, Kept, Caused;
    match act
    case DropValue => DropValueKept(l);
    case DrainEntry => DrainEntryKept(l);
    case CancelEntry => CancelEntryKept(l);
    case DropEntry =>
      if LastRef(l) { DropEntryLastKept(l); }
      else { DropEntrySharedKept(l); }
  }

  /** Every enabled step of every actor keeps the invariant and raises no fault. */
  lemma StepKept(l: Local, act: Act)
    requires Sound(l) && Enabled(l, act)
    ensures Kept(l, Effect(l, act))
    ensures Caused(l.job, act, Effect(l, act).job)
  {
    hide Sound, Enabled, Effect, Kept, Caused;
    match act
    case LeakClone | LeakInsert | PoolStart | EnterOperate | Issue | FinishInline(_) | Unwind => SubmitKept(l, act);
    case ReturnPending | Track | Balance | InlineHook | UnleakClaim | UnleakDrop | UnwindDrop => ReturnKept(l, act);
    case KernelWrite | KernelComplete(_) | Retrieve | Claim | Hook | WriteResult | Publish => CompleteKept(l, act);
    case TakeWaker | DropPublished | Wake | Discard | StoreTerminal | DropDiscarded | CallbackReturn =>
      DispatchKept(l, act);
    case SetWaker(_, _) | TakeCompletion | ReadResult | TakeOp | ReleaseResolved | InlineTakeOp | InlineRelease =>
      PollKept(l, act);
    case BeginDrop | Abandon | CancelOp | ReleaseKey => DropKept(l, act);
    case DropValue | DrainEntry | CancelEntry | DropEntry => LetGoKept(l, act);
  }
}
