/**
 What would be a fault: single steps in any state, sound or not.  The invariant says that none
 of these ever happens.
 */
module Effects {
  import opened Lifecycle

  /** The steps that go through the pointer whatever they find; the others move program counters, or look first. */
  predicate GoesThroughThePointer(l: Local, act: Act) {
    match act
    case LeakInsert | PoolStart | Issue | Balance | UnleakClaim | Wake | CallbackReturn => false
    case BeginDrop | DropValue | DrainEntry => false
    case Retrieve => l.pend
    case _ => true
  }

  /** The steps of `submit`, of Windows and of the completer; the others are those of the future and of a shutdown. */
  predicate IsSubmitting(act: Act) {
    || act.LeakClone? || act.LeakInsert? || act.PoolStart? || act.EnterOperate? || act.Issue? || act.FinishInline?
    || act.Unwind? || act.ReturnPending? || act.Track? || act.Balance? || act.InlineHook? || act.UnleakClaim?
    || act.UnleakDrop? || act.UnwindDrop?
  }

  predicate IsCompleting(act: Act) {
    || act.KernelWrite? || act.KernelComplete? || act.Retrieve? || act.Claim? || act.Hook? || act.WriteResult?
    || act.Publish? || act.TakeWaker? || act.DropPublished? || act.Wake? || act.Discard? || act.StoreTerminal?
    || act.DropDiscarded? || act.CallbackReturn?
  }

  lemma SubmittingThroughFreedMemory(l: Local, act: Act)
    requires Enabled(l, act) && l.rec.None? && GoesThroughThePointer(l, act) && IsSubmitting(act)
    ensures Effect(l, act).fault
  {
  }

  lemma CompletingThroughFreedMemory(l: Local, act: Act)
    requires Enabled(l, act) && l.rec.None? && GoesThroughThePointer(l, act) && IsCompleting(act)
    ensures Effect(l, act).fault
  {
  }

  lemma HoldingThroughFreedMemory(l: Local, act: Act)
    requires Enabled(l, act) && l.rec.None? && GoesThroughThePointer(l, act) && !IsSubmitting(act) && !IsCompleting(act)
    ensures Effect(l, act).fault
  {
  }

  /** Going through a pointer whose record is freed is a fault, whichever step does it. */
  lemma FreedMemoryFaults(l: Local, act: Act)
    requires Enabled(l, act) && l.rec.None? && GoesThroughThePointer(l, act)
    ensures Effect(l, act).fault
  {
    hide Enabled, Effect, GoesThroughThePointer, IsSubmitting, IsCompleting;
    if IsSubmitting(act) {
      SubmittingThroughFreedMemory(l, act);
    } else if IsCompleting(act) {
      CompletingThroughFreedMemory(l, act);
    } else {
      HoldingThroughFreedMemory(l, act);
    }
  }

  /** A call through a closed handle is a fault. */
  lemma ClosedHandleFaults(l: Local, act: Act)
    requires Enabled(l, act) && l.rec.Some? && l.rec.value.op.Some? && l.closes > 0
    requires act.EnterOperate? || act.CancelOp? || act.CancelEntry?
    ensures Effect(l, act).fault
  {
  }

  /** So is a result that is read before it is there or written over one that is, or published twice. */
  lemma ResultMisuseFaults(l: Local, act: Act)
    requires Enabled(l, act) && l.rec.Some?
    requires var r := l.rec.value;
             || ((act.ReadResult? || act.Discard?) && r.slot.None?) || (act.WriteResult? && r.slot.Some?)
             || (act.Publish? && (r.state == Completed || r.state == Terminal))
    ensures Effect(l, act).fault
  {
  }

  /** So is an operation that is used after it was moved out, and a kernel reference claimed without being owed. */
  lemma OperationMisuseFaults(l: Local, act: Act)
    requires Enabled(l, act) && l.rec.Some?
    requires || ((act.EnterOperate? || act.InlineHook? || act.TakeOp? || act.InlineTakeOp?) && l.rec.value.op.None?)
             || ((act.Claim? || act.UnleakClaim?) && !l.live)
    ensures Effect(l, act).fault
  {
  }

  /** So is the last reference let go while the cell holds a result that the state does not show, or shows one that is
      not there; and a handle let go once too often. */
  lemma ReleaseMisuseFaults(l: Local, act: Act)
    requires Enabled(l, act) && l.rec.Some?
    requires var r := l.rec.value;
             || (act.DropValue? && l.refs == 0)
             || ((act.ReleaseKey? || act.DropPublished? || act.DropDiscarded? || act.DropEntry?) && r.strong == 1
                 && ((r.slot.Some? != (r.state == Completed)) || (r.op.Some? && l.refs == 0)))
    ensures Effect(l, act).fault
  {
  }
}
