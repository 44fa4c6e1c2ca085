/**
 What the invariant means for whole runs: any interleaving of any number of submissions,
 polls, future drops, cancellations, completions, foreign packets, file drops and
 shutdowns, from a process that has done nothing yet.
 */
module Guarantees {
  import opened Wrappers
  import opened Lifecycle
  import opened LifecycleInvariant
  import opened System

  datatype Run = Run(states: seq<State>, steps: seq<Step>)

  ghost predicate IsRun(r: Run) {
    && |r.states| == |r.steps| + 1
    && r.states[0] == START
    && forall i :: 0 <= i < |r.steps| ==>
         Allowed(r.states[i], r.steps[i]) && r.states[i + 1] == Perform(r.states[i], r.steps[i])
  }

  /** No interleaving goes through freed or recycled memory, reads an unwritten result, loses a
      result, takes an operation twice, completes an operation twice or uses a closed handle. */
  lemma {:induction false} NoRunFaults(r: Run, n: nat)
    requires IsRun(r) && n < |r.states|
    ensures Inv(r.states[n]) && !r.states[n].fault
  {
    hide Perform, Allowed;
    if n == 0 {
      assert Inv(START);
    } else {
      NoRunFaults(r, n - 1);
      assert Allowed(r.states[n - 1], r.steps[n - 1]);
      PerformKept(r.states[n - 1], r.steps[n - 1]);
    }
  }

  lemma JobHolds(r: Run, n: nat, id: JobId)
    requires IsRun(r) && n < |r.states| && id in r.states[n].jobs
    ensures JobInv(r.states[n], id)
  {
    hide JobInv, CellInv;
    NoRunFaults(r, n);
  }

  // ---------------------------------------------------------------- reference counts

  /** A record is allocated exactly while someone holds it, and its count is the number of holders. */
  lemma CountsMatchHolders(r: Run, n: nat, id: JobId)
    requires IsRun(r) && n < |r.states| && id in r.states[n].jobs
    ensures var s := r.states[n];
            && (Owns(s, id) <==> Holders(View(s, id)) > 0)
            && (Owns(s, id) ==> s.heap[s.jobs[id].addr].strong == Holders(View(s, id)))
            && s.jobs[id].hist.frees == One(!Owns(s, id))
  {
    NoRunFaults(r, n);
    hide PhaseInv, RaceInv, LiveInv, TableInv, RecInv, WakeInv, HistoryInv, Holders;
    assert JobInv(r.states[n], id);
  }

  /** While Windows may still write to the record, or a dispatcher is working on it, it is allocated
      and is the one that was submitted. */
  lemma NeverFreedUnderTheKernel(r: Run, n: nat, id: JobId)
    requires IsRun(r) && n < |r.states| && id in r.states[n].jobs
    ensures var s := r.states[n];
            && (InKernel(s.jobs[id].kernel) ==> Owns(s, id) && s.jobs[id].addr in s.live)
            && (DispatcherHolds(s.jobs[id].disp) ==> Owns(s, id))
            && (OwnerHolds(s.jobs[id].owner) ==> Owns(s, id))
  {
    NoRunFaults(r, n);
    hide PhaseInv, RaceInv, TableInv, RecInv, WakeInv, HistoryInv;
    assert JobInv(r.states[n], id);
  }

  lemma UnheldIsFreed(l: Local)
    requires LocalInv(l) && !l.pend && !l.canc
    requires !OwnerHolds(l.job.owner) && !InKernel(l.job.kernel) && !DispatcherHolds(l.job.disp) && !l.job.unwound
    ensures l.rec.None? && l.job.hist.frees == 1
  {
    hide PhaseInv, RaceInv, TableInv, RecInv, WakeInv, HistoryInv;
  }

  /** Everything is released in the end: once the future is settled or dropped, the packet is
      dispatched and the tables have let go, the record has been freed. */
  lemma NothingLeaks(r: Run, n: nat, id: JobId)
    requires IsRun(r) && n < |r.states| && id in r.states[n].jobs
    requires var s := r.states[n];
             var j := s.jobs[id];
             && !OwnerHolds(j.owner) && !InKernel(j.kernel) && !DispatcherHolds(j.disp) && !j.unwound
             && EntryOf(j) !in s.pending && EntryOf(j) !in s.cancels
    ensures !Owns(r.states[n], id) && r.states[n].jobs[id].hist.frees == 1
  {
    NoRunFaults(r, n);
    hide LocalInv;
    assert JobInv(r.states[n], id);
    UnheldIsFreed(View(r.states[n], id));
  }

  /** What one step leaves alone about a submission. */
  lemma StepHistory(s: State, step: Step, id: JobId)
    requires Inv(s) && Allowed(s, step) && id in s.jobs
    ensures var s' := Perform(s, step);
            && id in s'.jobs && s'.jobs[id].addr == s.jobs[id].addr
            && (!Owns(s, id) ==> !Owns(s', id))
            && (Reclaimed(s.jobs[id]) ==> Reclaimed(s'.jobs[id]))
  {
    hide LocalInv, Effect, Enabled, CellInv, JobInv, Accounted;
    match step
    case Submit(x, h, a) => SubmitViews(s, x, h, a, id);
    case Do(x, act) =>
      StepIsSaveable(s, x, act);
      var l' := Effect(Load(s, x), act);
      if x == id {
        LoadIsSound(s, id);
        StepKept(Load(s, id), act);
        SavedView(s, id, l');
      } else {
        OthersUnmoved(s, x, l', id);
      }
    case _ =>
  }

  /** Freed once and for all, although its address is handed out again. */
  lemma {:induction false} FreedOnce(r: Run, m: nat, n: nat, id: JobId)
    requires IsRun(r) && m <= n < |r.states| && id in r.states[m].jobs && !Owns(r.states[m], id)
    ensures id in r.states[n].jobs && !Owns(r.states[n], id) && r.states[n].jobs[id].hist.frees == 1
    decreases n
  {
    hide Perform, Allowed, Inv, Owns;
    if m < n {
      FreedOnce(r, m, n - 1, id);
      NoRunFaults(r, n - 1);
      assert Allowed(r.states[n - 1], r.steps[n - 1]);
      StepHistory(r.states[n - 1], r.steps[n - 1], id);
    }
    CountsMatchHolders(r, n, id);
  }

  // ---------------------------------------------------------------- addresses and packets

  /** Every live address names one allocated record whose kernel reference nobody has reclaimed. */
  lemma LiveNamesOneLeak(r: Run, n: nat, a: Addr)
    requires IsRun(r) && n < |r.states| && a in r.states[n].live
    ensures var s := r.states[n];
            && a in s.heap && a != 0
            && var id := s.heap[a].id;
            && id in s.jobs && s.jobs[id].addr == a && s.jobs[id].disp.NotYet?
            && (InSubmit(s.jobs[id].owner) || InKernel(s.jobs[id].kernel) || s.jobs[id].unwound)
            && (forall other :: other in s.jobs && other != id && s.jobs[other].addr == a ==> !Owns(s, other))
  {
    NoRunFaults(r, n);
    hide RaceInv, TableInv, RecInv, WakeInv, HistoryInv, CountInv;
    var s := r.states[n];
    assert JobInv(s, s.heap[a].id);
  }

  lemma ClaimableIsOwned(r: Run, n: nat, id: JobId)
    requires IsRun(r) && n < |r.states| && Allowed(r.states[n], Do(id, Claim))
    ensures Owns(r.states[n], id) && r.states[n].jobs[id].addr in r.states[n].live
  {
    hide IsRun, Owns;
    NeverFreedUnderTheKernel(r, n, id);
  }

  /** `dispatch_completion_with` on a bare address, all that a packet carries: an address that is not live is
      left alone, and a live one is followed to the record there, whose reference is claimed. */
  function DispatchAt(s: State, a: Addr): State {
    if a == 0 || a !in s.live then s
    else if a in s.heap && Allowed(s, Do(s.heap[a].id, Claim)) then Perform(s, Do(s.heap[a].id, Claim))
    else s.(fault := true)
  }

  /** Dispatching an address does to the process exactly what completing the operation leaked there does, and
      to any other address nothing. */
  lemma PacketsFindTheirOwner(r: Run, n: nat, a: Addr)
    requires IsRun(r) && n < |r.states|
    ensures var s := r.states[n];
            && (a !in s.live ==> DispatchAt(s, a) == s && forall p :: Perform(s, ForeignPacket(p, a)) == s)
            && (forall id :: Allowed(s, Do(id, Claim)) && s.jobs[id].addr == a ==>
                  a in s.live && DispatchAt(s, a) == Perform(s, Do(id, Claim)))
  {
    hide IsRun, Inv, Perform;
    var s := r.states[n];
    NoRunFaults(r, n);
    if a !in s.live {
      forall p ensures Perform(s, ForeignPacket(p, a)) == s {
        ForeignIsIgnored(s, p, a);
      }
    }
    forall id | Allowed(s, Do(id, Claim)) && s.jobs[id].addr == a
      ensures a in s.live && DispatchAt(s, a) == Perform(s, Do(id, Claim))
    {
      ClaimableIsOwned(r, n, id);
      LiveNamesOneLeak(r, n, a);
    }
  }

  lemma {:induction false} ReclaimedForever(r: Run, m: nat, n: nat, id: JobId)
    requires IsRun(r) && m <= n < |r.states| && id in r.states[m].jobs && Reclaimed(r.states[m].jobs[id])
    ensures id in r.states[n].jobs && Reclaimed(r.states[n].jobs[id])
    decreases n
  {
    hide Perform, Allowed, Inv, Owns, Reclaimed;
    if m < n {
      ReclaimedForever(r, m, n - 1, id);
      NoRunFaults(r, n - 1);
      assert Allowed(r.states[n - 1], r.steps[n - 1]);
      StepHistory(r.states[n - 1], r.steps[n - 1], id);
    }
  }

  /** The two ways to reclaim the kernel's reference: a dispatcher's, and the submitter's after an inline result. */
  predicate Reclaims(act: Act) {
    act.Claim? || act.UnleakClaim?
  }

  lemma ReclaimingReclaims(l: Local, act: Act)
    requires Sound(l) && Enabled(l, act) && Reclaims(act)
    ensures !Reclaimed(l.job) && l.live && !Effect(l, act).live && Reclaimed(Effect(l, act).job)
  {
    hide RaceInv, TableInv, RecInv, WakeInv, HistoryInv;
  }

  lemma ReclaimDelivers(s: State, id: JobId, act: Act, s': State)
    requires Inv(s) && Allowed(s, Do(id, act)) && Reclaims(act) && s' == Perform(s, Do(id, act))
    ensures id in s'.jobs && !Reclaimed(s.jobs[id]) && Reclaimed(s'.jobs[id])
    ensures s.jobs[id].addr in s.live && s.jobs[id].addr !in s'.live
  {
    hide Inv, LocalInv, CellInv, Effect, Enabled, Reclaimed;
    StepIsSaveable(s, id, act);
    LoadIsSound(s, id);
    ReclaimingReclaims(Load(s, id), act);
    var l := Effect(Load(s, id), act);
    SavedLive(s, id, l);
    assert s'.live == Save(s, id, l).live && !l.live;
  }

  lemma SavedLive(s: State, id: JobId, l: Local)
    requires id in s.jobs && s.jobs[id].handle in s.handles && Owns(s, id)
    ensures s.jobs[id].addr in Save(s, id, l).live <==> l.live
  {
  }

  /** Over a whole run a leaked reference is reclaimed at most once, by a dispatcher or by the submitter, and
      that is when its address leaves the live set. */
  lemma OneDispatcherPerLeak(r: Run, i: nat, j: nat, id: JobId, a: Act, b: Act)
    requires IsRun(r) && i < |r.steps| && j < |r.steps| && Reclaims(a) && Reclaims(b)
    requires r.steps[i] == Do(id, a) && r.steps[j] == Do(id, b)
    ensures i == j && a == b
    ensures var addr := r.states[i].jobs[id].addr; addr in r.states[i].live && addr !in r.states[i + 1].live
  {
    hide Inv, Perform, Reclaimed, Enabled;
    NoRunFaults(r, i);
    assert Allowed(r.states[i], r.steps[i]) && Allowed(r.states[j], r.steps[j]);
    ReclaimDelivers(r.states[i], id, a, r.states[i + 1]);
    if i < j {
      ReclaimedForever(r, i + 1, j, id);
      NoRunFaults(r, j);
      ReclaimDelivers(r.states[j], id, b, r.states[j + 1]);
    } else if j < i {
      NoRunFaults(r, j);
      ReclaimDelivers(r.states[j], id, b, r.states[j + 1]);
      ReclaimedForever(r, j + 1, i, id);
    }
  }

  // ---------------------------------------------------------------- cancellation

  /** What puts a submission where its key is let go after abandonment, or its table entry is. */
  lemma StepCause(s: State, step: Step, id: JobId)
    requires Inv(s) && Allowed(s, step)
    ensures var s' := Perform(s, step);
            id in s'.jobs ==>
              && (s'.jobs[id].abandoned && s'.jobs[id].owner.Releasing? ==>
                    || step == Do(id, CancelOp)
                    || (id in s.jobs && s.jobs[id].abandoned && s.jobs[id].owner.Releasing?))
              && (s'.jobs[id].asked ==> step == Do(id, CancelEntry) || (id in s.jobs && s.jobs[id].asked))
  {
    hide Effect, Enabled, CellInv, LocalInv, Accounted;
    if step.Do? && step.id == id {
      StepIsSaveable(s, id, step.act);
      LoadIsSound(s, id);
      StepKept(Load(s, id), step.act);
    }
  }

  lemma {:induction false} CancelledBefore(r: Run, n: nat, id: JobId)
    requires IsRun(r) && n < |r.states| && id in r.states[n].jobs
    ensures var j := r.states[n].jobs[id];
            && (j.abandoned && j.owner.Releasing? ==> exists k :: 0 <= k < n && r.steps[k] == Do(id, CancelOp))
            && (j.asked ==> exists k :: 0 <= k < n && r.steps[k] == Do(id, CancelEntry))
  {
    hide Perform, Allowed, Inv;
    if n > 0 {
      NoRunFaults(r, n - 1);
      assert Allowed(r.states[n - 1], r.steps[n - 1]);
      StepCause(r.states[n - 1], r.steps[n - 1], id);
      if id in r.states[n - 1].jobs {
        CancelledBefore(r, n - 1, id);
      }
    }
  }

  lemma ReleasingIsLate(l: Local)
    requires LocalInv(l) && l.job.owner.Releasing? && !l.job.abandoned && !l.job.inlined
    ensures !Early(l.job.disp)
  {
    hide LiveInv, TableInv, CountInv, RecInv, WakeInv, HistoryInv;
  }

  /** A future lets go of its operation only when the result came inline, when its completion has been published,
      or after Windows was asked to cancel it. */
  lemma DroppedInFlightIsCancelled(r: Run, i: nat, id: JobId)
    requires IsRun(r) && i < |r.steps| && r.steps[i] == Do(id, ReleaseKey)
    ensures id in r.states[i].jobs
    ensures var j := r.states[i].jobs[id];
            || j.inlined
            || (!j.abandoned && !Early(j.disp))
            || (exists k :: 0 <= k < i && r.steps[k] == Do(id, CancelOp))
  {
    hide Inv, Perform, LocalInv;
    assert Allowed(r.states[i], r.steps[i]);
    CancelledBefore(r, i, id);
    JobHolds(r, i, id);
    var j := r.states[i].jobs[id];
    if !j.abandoned && !j.inlined {
      ReleasingIsLate(View(r.states[i], id));
    }
  }

  /** A shutdown lets go of no table entry before it has asked Windows to cancel through it. */
  lemma EntriesAreCancelledFirst(r: Run, i: nat, id: JobId)
    requires IsRun(r) && i < |r.steps| && r.steps[i] == Do(id, DropEntry)
    ensures exists k :: 0 <= k < i && r.steps[k] == Do(id, CancelEntry)
  {
    hide Inv, Perform;
    assert Allowed(r.states[i], r.steps[i]);
    CancelledBefore(r, i, id);
  }

  // ---------------------------------------------------------------- progress

  /** What the future or the `submit` call that holds the key does next, mid-call. */
  function NextOfOwner(l: Local): Option<Act> {
    var pool := l.job.backend.Pool?;
    match l.job.owner
    case Created => Some(LeakClone)
    case Cloned => Some(LeakInsert)
    case Leaked => Some(if pool then PoolStart else EnterOperate)
    case PoolStarted => Some(EnterOperate)
    case Operating => Some(Issue)
    case Issued => Some(ReturnPending)
    case StartedPending => Some(Track)
    case StartedInline(r) => Some(if pool then Balance else if r.Done? then InlineHook else UnleakClaim)
    case Balanced(r) => Some(if r.Done? then InlineHook else UnleakClaim)
    case InlineHooked(_) => Some(UnleakClaim)
    case UnleakClaimed(_) => Some(UnleakDrop)
    case InlineTaken(_) => Some(InlineRelease)
    case Armed(_) => Some(TakeCompletion)
    case Winning => Some(ReadResult)
    case ResultRead(_) => Some(TakeOp)
    case OpTaken(_) => Some(ReleaseResolved)
    case Dropping => Some(Abandon)
    case Abandoning => Some(CancelOp)
    case Releasing => Some(ReleaseKey)
    case Unwound => Some(UnwindDrop)
    case _ => None
  }

  /** What a dispatcher does next. */
  function NextOfDispatcher(l: Local): Option<Act> {
    match l.job.disp
    case Claimed(_) => Some(Hook)
    case Hooked(_) => Some(WriteResult)
    case Wrote => Some(Publish)
    case Published => Some(TakeWaker)
    case HasWaker(_) => Some(DropPublished)
    case Waking(_) => Some(Wake)
    case Discarding => Some(Discard)
    case Discarded => Some(StoreTerminal)
    case Stored => Some(DropDiscarded)
    case Ended => if l.job.backend.Pool? then Some(CallbackReturn) else None
    case _ => None
  }

  /** What becomes of the packet next. */
  function NextOfPacket(l: Local): Option<Act> {
    match l.job.kernel
    case Running => Some(KernelComplete(Done(0)))
    case Queued(_) => Some(if l.job.backend.Pool? then Claim else Retrieve)
    case Retrieved(_) => Some(Claim)
    case _ => None
  }

  lemma UnlockedAfterSubmit(l: Local)
    requires LocalInv(l)
    ensures l.job.owner.Operating? || l.job.owner.Issued? || Unlocked(l)
    ensures PhaseInv(l.job)
  {
    hide RaceInv, LiveInv, TableInv, CountInv, WakeInv, HistoryInv, PhaseInv;
  }

  lemma SubmitProgress(l: Local, loaded: Local)
    requires PhaseInv(l.job) && loaded.job == l.job && InSubmit(l.job.owner)
    ensures NextOfOwner(l).Some? && Enabled(loaded, NextOfOwner(l).value)
  {
  }

  lemma FutureProgress(l: Local, loaded: Local)
    requires PhaseInv(l.job) && loaded.job == l.job && loaded.rec == l.rec && Unlocked(l) && !InSubmit(l.job.owner)
    ensures NextOfOwner(l).Some? ==> Enabled(loaded, NextOfOwner(l).value)
  {
  }

  lemma DispatcherProgress(l: Local, loaded: Local)
    requires loaded.job == l.job && loaded.rec == l.rec && Unlocked(l)
    ensures NextOfDispatcher(l).Some? ==> Enabled(loaded, NextOfDispatcher(l).value)
  {
  }

  lemma PacketProgress(l: Local, loaded: Local)
    requires PhaseInv(l.job) && loaded.job == l.job && loaded.rec == l.rec && loaded.canc == l.canc
    requires Unlocked(l) && !InSubmit(l.job.owner)
    ensures NextOfPacket(l).Some? ==> Enabled(loaded, NextOfPacket(l).value)
    ensures l.canc ==> Enabled(loaded, if l.job.asked then DropEntry else CancelEntry)
  {
  }

  lemma LocalProgress(l: Local, loaded: Local)
    requires LocalInv(l) && loaded.job == l.job && loaded.rec == l.rec && loaded.canc == l.canc
    ensures NextOfOwner(l).Some? ==> Enabled(loaded, NextOfOwner(l).value)
    ensures !InSubmit(l.job.owner) ==>
              && (NextOfDispatcher(l).Some? ==> Enabled(loaded, NextOfDispatcher(l).value))
              && (NextOfPacket(l).Some? ==> Enabled(loaded, NextOfPacket(l).value))
              && (l.canc ==> Enabled(loaded, if l.job.asked then DropEntry else CancelEntry))
  {
    hide LocalInv, PhaseInv, Enabled, NextOfOwner, NextOfDispatcher, NextOfPacket;
    UnlockedAfterSubmit(l);
    if InSubmit(l.job.owner) {
      SubmitProgress(l, loaded);
    } else {
      FutureProgress(l, loaded);
      DispatcherProgress(l, loaded);
      PacketProgress(l, loaded);
    }
  }

  /** Nobody is stuck: a call on a submission or its future can always go on; and once the submission has returned, so
      can its packet, its dispatcher and a shutdown that holds its entry. */
  lemma NobodyIsStuck(r: Run, n: nat, id: JobId)
    requires IsRun(r) && n < |r.states| && id in r.states[n].jobs
    ensures var s := r.states[n];
            var l := View(s, id);
            && (NextOfOwner(l).Some? ==> Allowed(s, Do(id, NextOfOwner(l).value)))
            && (!InSubmit(l.job.owner) ==>
                  && (NextOfDispatcher(l).Some? ==> Allowed(s, Do(id, NextOfDispatcher(l).value)))
                  && (NextOfPacket(l).Some? ==> Allowed(s, Do(id, NextOfPacket(l).value)))
                  && (l.canc ==> Allowed(s, Do(id, if l.job.asked then DropEntry else CancelEntry))))
  {
    hide IsRun, LocalInv, Enabled, NextOfOwner, NextOfDispatcher, NextOfPacket, InSubmit;
    JobHolds(r, n, id);
    LocalProgress(View(r.states[n], id), Load(r.states[n], id));
  }

  lemma HolderIsFree(l: Local, w: Waker)
    ensures l.job.owner.Idle? ==> Enabled(l, SetWaker(w, false)) && Enabled(l, BeginDrop)
    ensures l.job.owner.InlineIdle? && Unlocked(l) ==> Enabled(l, InlineTakeOp) && Enabled(l, BeginDrop)
    ensures l.job.owner.Resolved? ==> Enabled(l, DropValue)
    ensures l.pend ==> Enabled(l, DrainEntry)
  {
  }

  /** The holder of a future may poll it with any waker or drop it, whichever way it was started, and may let go of what
      it resolved to. */
  lemma FuturesMayBePolledOrDropped(r: Run, n: nat, id: JobId, w: Waker)
    requires IsRun(r) && n < |r.states| && id in r.states[n].jobs
    ensures var s := r.states[n];
            var j := s.jobs[id];
            && (j.owner.Idle? ==> Allowed(s, Do(id, SetWaker(w, false))) && Allowed(s, Do(id, BeginDrop)))
            && (j.owner.InlineIdle? ==> Allowed(s, Do(id, InlineTakeOp)) && Allowed(s, Do(id, BeginDrop)))
            && (j.owner.Resolved? ==> Allowed(s, Do(id, DropValue)))
            && (Owns(s, id) && EntryOf(j) in s.pending ==> Allowed(s, Do(id, DrainEntry)))
  {
    hide IsRun, LocalInv, Enabled;
    JobHolds(r, n, id);
    UnlockedAfterSubmit(View(r.states[n], id));
    HolderIsFree(Load(r.states[n], id), w);
  }

  /** The next step of dropping a file. */
  function NextOfFile(h: HandleId, c: Cell): Option<Step> {
    match c.file
    case FileOpen | FileGone => None
    case FileCancelled => Some(if c.backend.Pool? then CancelRegistration(h) else ReleaseFile(h))
    case RegistrationCancelled => Some(DrainRegistration(h))
    case RegistrationDrained => Some(ReleaseFile(h))
  }

  lemma NobodyOwed(s: State, h: HandleId)
    requires h in s.handles && CellInv(s, h)
    requires forall id :: id in s.jobs && s.jobs[id].handle == h ==> !CallbackOwed(s.jobs[id])
    ensures s.handles[h].pool == 0
  {
    assert OwedCallbacks(s.jobs, h) == {};
  }

  lemma FileStep(s: State, h: HandleId)
    requires h in s.handles && CellInv(s, h) && NextOfFile(h, s.handles[h]).Some? && s.handles[h].pool == 0
    ensures Allowed(s, NextOfFile(h, s.handles[h]).value)
  {
  }

  /** A file that is being dropped can be dropped all the way: it waits for callbacks still owed and for nothing
      else. */
  lemma FilesGoInTheEnd(r: Run, n: nat, h: HandleId)
    requires IsRun(r) && n < |r.states| && h in r.states[n].handles
    ensures var s := r.states[n];
            var next := NextOfFile(h, s.handles[h]);
            next.Some? ==>
              || Allowed(s, next.value)
              || exists id :: id in s.jobs && s.jobs[id].handle == h && CallbackOwed(s.jobs[id])
  {
    NoRunFaults(r, n);
    var s := r.states[n];
    hide IsRun, JobInv, CallbackOwed;
    assert CellInv(s, h);
    if !exists id :: id in s.jobs && s.jobs[id].handle == h && CallbackOwed(s.jobs[id]) {
      NobodyOwed(s, h);
      if NextOfFile(h, s.handles[h]).Some? {
        FileStep(s, h);
      }
    }
  }

  // ---------------------------------------------------------------- results and wakeups

  lemma SlotAccounts(l: Local)
    requires LocalInv(l)
    ensures var j := l.job;
            var h := j.hist;
            && h.writes <= 1
            && h.writes == h.taken + h.discarded + h.dropped + One(l.rec.Some? && l.rec.value.slot.Some?)
            && (l.rec.Some? ==>
                  (l.rec.value.slot.Some? <==>
                     || l.rec.value.state == Completed || j.disp.Wrote? || j.disp.Discarding? || j.owner.Winning?))
  {
    hide LiveInv, TableInv, WakeInv, OpMoved;
    assert l.rec.None? ==> OwnerHolds(l.job.owner) == false && DispatcherHolds(l.job.disp) == false;
  }

  /** The result cell is live exactly in state `Completed` or inside a write or read window, and a
      written result is taken, discarded or dropped with the record, once. */
  lemma ResultsAreConserved(r: Run, n: nat, id: JobId)
    requires IsRun(r) && n < |r.states| && id in r.states[n].jobs
    ensures var s := r.states[n];
            var j := s.jobs[id];
            var h := j.hist;
            && h.writes <= 1
            && h.writes == h.taken + h.discarded + h.dropped
                           + One(Owns(s, id) && s.heap[j.addr].slot.Some?)
            && (Owns(s, id) ==>
                  (s.heap[j.addr].slot.Some? <==>
                     || s.heap[j.addr].state == Completed || j.disp.Wrote? || j.disp.Discarding? || j.owner.Winning?))
  {
    NoRunFaults(r, n);
    hide LocalInv, SlotLive;
    assert JobInv(r.states[n], id);
    SlotAccounts(View(r.states[n], id));
  }

  /** A future that resolves does so with what Windows reported for its own operation, after the
      completion hook ran once, and with the operation moved out once. */
  lemma FuturesGetTheirOwnResult(r: Run, n: nat, id: JobId)
    requires IsRun(r) && n < |r.states| && id in r.states[n].jobs
    ensures var j := r.states[n].jobs[id];
            && j.hist.moves <= 1
            && (Settled(j.owner) ==> j.hist.moves == 1 && j.hist.hooks == One(!j.inlined || j.owner.v.Done?))
            && (Settled(j.owner) ==> j.hist.value == Some(j.owner.v))
            && (Settled(j.owner) && !j.inlined ==> j.hist.taken == 1)
            && (j.inlined ==> j.hist.writes == 0)
  {
    NoRunFaults(r, n);
    hide LiveInv, TableInv, WakeInv, CountInv, RecInv;
    assert JobInv(r.states[n], id);
  }

  lemma ValueCause(s: State, step: Step, id: JobId, v: Outcome)
    requires Inv(s) && Allowed(s, step)
    ensures var s' := Perform(s, step);
            id in s'.jobs && s'.jobs[id].hist.value == Some(v) ==>
              || step == Do(id, KernelComplete(v)) || step == Do(id, FinishInline(v))
              || (id in s.jobs && s.jobs[id].hist.value == Some(v))
  {
    hide Effect, Enabled, CellInv, LocalInv, Accounted, WakesPendingTask, Leaving;
    if step.Do? && step.id == id {
      StepIsSaveable(s, id, step.act);
      LoadIsSound(s, id);
      StepKept(Load(s, id), step.act);
    }
  }

  lemma {:induction false} ValueWasReported(r: Run, n: nat, id: JobId, v: Outcome)
    requires IsRun(r) && n < |r.states| && id in r.states[n].jobs && r.states[n].jobs[id].hist.value == Some(v)
    ensures exists k :: 0 <= k < n && (r.steps[k] == Do(id, KernelComplete(v)) || r.steps[k] == Do(id, FinishInline(v)))
  {
    hide Perform, Allowed, Inv;
    if n > 0 {
      NoRunFaults(r, n - 1);
      assert Allowed(r.states[n - 1], r.steps[n - 1]);
      ValueCause(r.states[n - 1], r.steps[n - 1], id, v);
      if id in r.states[n - 1].jobs && r.states[n - 1].jobs[id].hist.value == Some(v) {
        ValueWasReported(r, n - 1, id, v);
      }
    }
  }

  /** What a future resolves to is the status with which Windows completed its operation, earlier in the run. */
  lemma ResolvedWithWhatWasReported(r: Run, n: nat, id: JobId)
    requires IsRun(r) && n < |r.states| && id in r.states[n].jobs && Settled(r.states[n].jobs[id].owner)
    ensures var v := r.states[n].jobs[id].owner.v;
            exists k :: 0 <= k < n && (r.steps[k] == Do(id, KernelComplete(v)) || r.steps[k] == Do(id, FinishInline(v)))
  {
    hide IsRun;
    FuturesGetTheirOwnResult(r, n, id);
    ValueWasReported(r, n, id, r.states[n].jobs[id].owner.v);
  }

  /** If the latest poll returned `Pending` and the operation is completed, that poll's task has been
      signalled since, or the completer still has its waker to take and signal. */
  lemma NoLostWakeup(r: Run, n: nat, id: JobId)
    requires IsRun(r) && n < |r.states| && id in r.states[n].jobs
    requires var s := r.states[n];
             && s.jobs[id].owner.Idle? && s.jobs[id].owner.last.Some?
             && Owns(s, id) && s.heap[s.jobs[id].addr].state == Completed
    ensures var s := r.states[n];
            s.jobs[id].hist.woken || BoundToWake(View(s, id), s.jobs[id].owner.last.value.task)
  {
    NoRunFaults(r, n);
    hide LiveInv, TableInv, CountInv, HistoryInv;
    assert JobInv(r.states[n], id);
  }

  /** In this state, this step wakes the task whose poll returned `Pending` with this waker. */
  ghost predicate WakesTaskOf(s: State, step: Step, id: JobId, last: Waker) {
    && step == Do(id, Wake) && id in s.jobs && s.jobs[id].owner == Idle(Some(last))
    && s.jobs[id].disp.Waking? && s.jobs[id].disp.w.Some? && s.jobs[id].disp.w.value.task == last.task
  }

  lemma SignalCause(s: State, step: Step, id: JobId)
    requires Inv(s) && Allowed(s, step) && id in Perform(s, step).jobs && Perform(s, step).jobs[id].hist.woken
    ensures id in s.jobs
    ensures var o, o' := s.jobs[id].owner, Perform(s, step).jobs[id].owner;
            || (o.Idle? && o.last.Some? && WakesTaskOf(s, step, id, o.last.value) && o' == o)
            || (s.jobs[id].hist.woken && (o' == o || Leaving(o') || !(o.Idle? || Leaving(o))))
  {
    hide Effect, Enabled, CellInv, LocalInv, Accounted, Leaving;
    if step.Do? && step.id == id {
      StepIsSaveable(s, id, step.act);
      LoadIsSound(s, id);
      StepKept(Load(s, id), step.act);
    }
  }

  lemma {:induction false} WokenWasSignalled(r: Run, n: nat, id: JobId) returns (k: nat, last: Waker)
    requires IsRun(r) && n < |r.states| && id in r.states[n].jobs && r.states[n].jobs[id].hist.woken
    ensures k < n && WakesTaskOf(r.states[k], r.steps[k], id, last)
    ensures r.states[n].jobs[id].owner == Idle(Some(last)) || Leaving(r.states[n].jobs[id].owner)
  {
    hide Perform, Allowed, Leaving, Inv;
    assert n > 0;
    NoRunFaults(r, n - 1);
    var s, step := r.states[n - 1], r.steps[n - 1];
    assert Allowed(s, step) && r.states[n] == Perform(s, step);
    SignalCause(s, step, id);
    var o := s.jobs[id].owner;
    if o.Idle? && o.last.Some? && WakesTaskOf(s, step, id, o.last.value) && r.states[n].jobs[id].owner == o {
      k, last := n - 1, o.last.value;
    } else {
      k, last := WokenWasSignalled(r, n - 1, id);
    }
  }

  /** The completer's next step towards waking. */
  function NextWakeStep(d: Dispatcher): Option<Act> {
    match d
    case Published => Some(TakeWaker)
    case HasWaker(_) => Some(DropPublished)
    case Waking(_) => Some(Wake)
    case _ => None
  }

  /** A completer bound to wake is never blocked, and when it has finished it has signalled: a future whose latest
      poll returned `Pending` is never left behind. */
  lemma BoundCompleterSignals(r: Run, n: nat, id: JobId)
    requires IsRun(r) && n < |r.states| && id in r.states[n].jobs
    requires r.states[n].jobs[id].owner.Idle? && r.states[n].jobs[id].owner.last.Some?
    ensures var s := r.states[n];
            var j := s.jobs[id];
            && (Finished(j.disp) ==> j.hist.woken)
            && (BoundToWake(View(s, id), j.owner.last.value.task) ==>
                  && j.handle in s.handles && NextWakeStep(j.disp).Some?
                  && Allowed(s, Do(id, NextWakeStep(j.disp).value)))
  {
    hide IsRun, LocalInv, BoundToWake, Enabled, Finished;
    JobHolds(r, n, id);
    WakesInTheEnd(View(r.states[n], id), Load(r.states[n], id));
  }

  /** Once the completer has returned, the task of the poll that is still pending has been woken, after that poll. */
  lemma PendingPollsAreWoken(r: Run, n: nat, id: JobId, last: Waker)
    requires IsRun(r) && n < |r.states| && id in r.states[n].jobs
    requires r.states[n].jobs[id].owner == Idle(Some(last)) && Finished(r.states[n].jobs[id].disp)
    ensures exists k :: 0 <= k < n && WakesTaskOf(r.states[k], r.steps[k], id, last)
  {
    hide IsRun, Finished, BoundToWake, WakesTaskOf;
    BoundCompleterSignals(r, n, id);
    var _, _ := WokenWasSignalled(r, n, id);
  }

  lemma WakesInTheEnd(l: Local, loaded: Local)
    requires LocalInv(l) && loaded.job == l.job && l.job.owner.Idle? && l.job.owner.last.Some?
    ensures Finished(l.job.disp) ==> l.job.hist.woken
    ensures BoundToWake(l, l.job.owner.last.value.task) ==>
              NextWakeStep(l.job.disp).Some? && Enabled(loaded, NextWakeStep(l.job.disp).value)
  {
    hide LiveInv, TableInv, CountInv, HistoryInv, RecInv, RaceInv, PhaseInv;
  }

  /** An abandoned operation wakes nobody, and no operation wakes twice. */
  lemma AbandonedWakesNobody(r: Run, n: nat, id: JobId)
    requires IsRun(r) && n < |r.states| && id in r.states[n].jobs
    ensures var j := r.states[n].jobs[id];
            j.hist.wakes <= 1 && (j.abandoned ==> j.hist.wakes == 0 && !j.disp.HasWaker? && !j.disp.Waking?)
  {
    NoRunFaults(r, n);
    hide LiveInv, TableInv, CountInv, HistoryInv, RecInv;
    assert JobInv(r.states[n], id);
  }

  // ---------------------------------------------------------------- backends and handles

  /** Proactor `p` is neither submitting, nor between retrieving a packet and dispatching it, nor
      shutting down. */
  ghost predicate BetweenCalls(s: State, p: nat) {
    forall id :: id in s.jobs && s.jobs[id].backend == Driver(p) ==>
      !InSubmit(s.jobs[id].owner) && !s.jobs[id].kernel.Retrieved? && !s.jobs[id].drained
  }

  lemma TableMatchesLive(l: Local)
    requires LocalInv(l) && l.job.backend.Driver?
    requires !InSubmit(l.job.owner) && !l.job.kernel.Retrieved? && !l.job.drained
    ensures l.pend <==> l.live && !l.job.unwound
  {
    hide RaceInv, RecInv, WakeInv, HistoryInv, CountInv;
  }

  lemma TableAt(s: State, p: nat, a: Addr)
    requires HeapInv(s) && ListedInv(s, s.pending) && BetweenCalls(s, p)
    requires a in s.heap && JobInv(s, s.heap[a].id)
    ensures var j := s.jobs[s.heap[a].id];
            (p + 1, a) in s.pending <==> a in s.live && j.backend == Driver(p) && !j.unwound
  {
    hide LocalInv, InSubmit;
    var id := s.heap[a].id;
    var l := View(s, id);
    if s.jobs[id].backend == Driver(p) {
      TableMatchesLive(l);
    }
  }

  /** Between calls a proactor's table lists exactly the live addresses of its in-flight operations. */
  lemma PendingIsInFlight(r: Run, n: nat, p: nat, a: Addr)
    requires IsRun(r) && n < |r.states| && BetweenCalls(r.states[n], p)
    ensures var s := r.states[n];
            (p + 1, a) in s.pending <==>
              && a in s.live && a in s.heap && s.heap[a].id in s.jobs
              && s.jobs[s.heap[a].id].backend == Driver(p) && !s.jobs[s.heap[a].id].unwound
  {
    NoRunFaults(r, n);
    var s := r.states[n];
    hide IsRun, LocalInv, InSubmit, CellInv, BetweenCalls;
    if a in s.heap {
      TableAt(s, p, a);
    }
  }

  /** The pool's pending-I/O count is the number of callbacks still owed, and once the wait in the
      registration's destructor has returned, every reference leaked on that handle has been reclaimed
      unless its start unwound. */
  lemma PoolDrainsEverything(r: Run, n: nat, h: HandleId)
    requires IsRun(r) && n < |r.states| && h in r.states[n].handles && r.states[n].handles[h].backend.Pool?
    ensures var s := r.states[n];
            && s.handles[h].pool == |OwedCallbacks(s.jobs, h)|
            && (s.handles[h].file.RegistrationDrained? || s.handles[h].file.FileGone? ==>
                  forall id :: id in s.jobs && s.jobs[id].handle == h ==>
                    && !CallbackOwed(s.jobs[id])
                    && (Owns(s, id) && s.jobs[id].addr in s.live ==> s.jobs[id].unwound))
  {
    NoRunFaults(r, n);
    var s := r.states[n];
    assert CellInv(s, h);
    hide RaceInv, RecInv, WakeInv, HistoryInv, CountInv, TableInv;
    if s.handles[h].file.RegistrationDrained? || s.handles[h].file.FileGone? {
      forall id | id in s.jobs && s.jobs[id].handle == h
        ensures !CallbackOwed(s.jobs[id]) && (Owns(s, id) && s.jobs[id].addr in s.live ==> s.jobs[id].unwound)
      {
        assert JobInv(s, id);
        assert id !in OwedCallbacks(s.jobs, h);
      }
    }
  }

  /** The handle is closed once, by its last owner, and never while a file or an operation owns it. */
  lemma HandlesCloseOnce(r: Run, n: nat, h: HandleId)
    requires IsRun(r) && n < |r.states| && h in r.states[n].handles
    ensures var s := r.states[n];
            && s.handles[h].closes <= 1
            && (s.handles[h].closes == 1 <==>
                  && s.handles[h].file.FileGone?
                  && forall id :: id in s.jobs && s.jobs[id].handle == h ==> !HoldsHandle(s.jobs[id]))
  {
    NoRunFaults(r, n);
    var s := r.states[n];
    assert CellInv(s, h);
    hide HoldsHandle, JobInv;
    if s.handles[h].refs == 0 {
      assert HandleHolders(s.jobs, h) == {};
      forall id | id in s.jobs && s.jobs[id].handle == h ensures !HoldsHandle(s.jobs[id]) {
        assert id !in HandleHolders(s.jobs, h);
      }
    } else if s.handles[h].file.FileGone? {
      var id :| id in HandleHolders(s.jobs, h);
    }
  }

  /** The handle a step asks Windows to cancel on. */
  function CancelledOn(s: State, step: Step): Option<HandleId> {
    match step
    case CancelFile(h) => Some(h)
    case CancelRegistration(h) => Some(h)
    case Do(id, act) =>
      if (act.CancelOp? || act.CancelEntry?) && id in s.jobs && Owns(s, id) then s.heap[s.jobs[id].addr].op else None
    case _ => None
  }

  /** Dropping a pending future cancels on the handle its operation was submitted on. */
  lemma DropsCancelOnTheirHandle(r: Run, i: nat, id: JobId)
    requires IsRun(r) && i < |r.steps| && r.steps[i] == Do(id, CancelOp)
    ensures id in r.states[i].jobs && CancelledOn(r.states[i], r.steps[i]) == Some(r.states[i].jobs[id].handle)
  {
    assert Allowed(r.states[i], r.steps[i]);
    JobHolds(r, i, id);
    hide IsRun, PhaseInv, RaceInv, WakeInv, HistoryInv, LiveInv, TableInv;
  }

  /** Whatever is dropped first, a cancellation goes through a handle that is still open. */
  lemma CancelsThroughOpenHandles(r: Run, i: nat)
    requires IsRun(r) && i < |r.steps| && CancelledOn(r.states[i], r.steps[i]).Some?
    ensures CellIsOpen(r.states[i], CancelledOn(r.states[i], r.steps[i]).value)
  {
    NoRunFaults(r, i);
    var s, step := r.states[i], r.steps[i];
    assert Allowed(s, step);
    var h := CancelledOn(s, step).value;
    hide PhaseInv, RaceInv, WakeInv, HistoryInv, LiveInv, TableInv, Enabled;
    if step.Do? {
      LoadIsSound(s, step.id);
      assert JobInv(s, step.id);
      assert h == s.jobs[step.id].handle;
    } else {
      assert CellInv(s, h);
      FilesKeepHandlesOpen(s, h);
    }
  }
}
