/**
 Every submission at once: one heap of records at reusable addresses, the global live
 set, the proactors' pending tables, and the shared handles with their files.

 Each submission acts through the address it was given.  Freed addresses are handed out
 again, so the record found there may by then be another submission's: a step that goes
 through such a pointer is a fault, like one that goes to freed memory.
 */
module System {
  import opened Wrappers
  import opened Lifecycle
  import opened LifecycleInvariant

  /** Dropping a file: cancel on the handle, then for a pool registration cancel again and
      wait for the callbacks, and only then let go of the handle. */
  datatype FilePc = FileOpen | FileCancelled | RegistrationCancelled | RegistrationDrained | FileGone

  /** A kernel handle: owners, how often it was closed, and its registration's pending-I/O count. */
  datatype Cell = Cell(refs: nat, closes: nat, pool: int, backend: Backend, file: FilePc)

  /** `pending` and `cancels` hold pairs of a proactor and an address. */
  datatype State = State(heap: map<Addr, Rec>, live: set<Addr>, pending: set<(nat, Addr)>,
                         cancels: set<(nat, Addr)>, jobs: map<JobId, Job>, handles: map<HandleId, Cell>,
                         fault: bool)

  datatype Step =
    | OpenFile(h: HandleId, b: Backend)
    | Submit(id: JobId, h: HandleId, a: Addr)
    | Do(id: JobId, act: Act)
    | ForeignPacket(p: nat, a: Addr)
    | CancelFile(h: HandleId) | CancelRegistration(h: HandleId) | DrainRegistration(h: HandleId)
    | ReleaseFile(h: HandleId)

  // ---------------------------------------------------------------- steps

  /** The key of a submission's entry in its proactor's table. */
  function EntryOf(j: Job): (nat, Addr) {
    (match j.backend case Driver(p) => p + 1 case Pool => 0, j.addr)
  }

  function Put<T>(s: set<T>, x: T, present: bool): set<T> {
    if present then s + {x} else s - {x}
  }

  /** The record at the submission's address is the one allocated for it. */
  predicate Owns(s: State, id: JobId)
    requires id in s.jobs
  {
    s.jobs[id].addr in s.heap && s.heap[s.jobs[id].addr].id == id
  }

  /** What one submission finds through its pointer; nothing once its record is gone. */
  function View(s: State, id: JobId): Local
    requires id in s.jobs
  {
    var j := s.jobs[id];
    if Owns(s, id) then
      Local(j, Some(s.heap[j.addr]), j.addr in s.live, EntryOf(j) in s.pending, EntryOf(j) in s.cancels,
            0, 0, 0, false)
    else Local(j, None, false, false, false, 0, 0, 0, false)
  }

  /** The same together with the handle cell it shares with others. */
  function Load(s: State, id: JobId): Local
    requires id in s.jobs && s.jobs[id].handle in s.handles
  {
    var c := s.handles[s.jobs[id].handle];
    View(s, id).(refs := c.refs, closes := c.closes, pool := c.pool)
  }

  function Save(s: State, id: JobId, l: Local): State
    requires id in s.jobs && s.jobs[id].handle in s.handles
  {
    var j := s.jobs[id];
    var c := s.handles[j.handle];
    var s := s.(jobs := s.jobs[id := l.job],
                handles := s.handles[j.handle := c.(refs := l.refs, closes := l.closes, pool := l.pool)],
                fault := s.fault || l.fault || (!Owns(s, id) && (l.rec.Some? || l.live || l.pend || l.canc)));
    if j.addr in s.heap && s.heap[j.addr].id == id then
      s.(heap := if l.rec.Some? then s.heap[j.addr := l.rec.value] else s.heap - {j.addr},
         live := Put(s.live, j.addr, l.live), pending := Put(s.pending, EntryOf(j), l.pend),
         cancels := Put(s.cancels, EntryOf(j), l.canc))
    else s
  }

  const NO_HISTORY := History(0, 0, 0, 0, 0, 0, 0, false, 0, None)

  function NewJob(a: Addr, h: HandleId, b: Backend): Job {
    Job(a, h, b, Created, NotStarted, NotYet, false, false, false, false, false, NO_HISTORY)
  }

  function NewRec(id: JobId, h: HandleId): Rec {
    Rec(id, 1, Submitted, None, None, Some(h), false)
  }

  /** No submission on this handle is still inside `submit`, so nothing borrows its file. */
  predicate NotSubmitting(s: State, h: HandleId) {
    forall id :: id in s.jobs && s.jobs[id].handle == h ==> !InSubmit(s.jobs[id].owner)
  }

  predicate Allowed(s: State, step: Step) {
    match step
    case OpenFile(h, b) => h !in s.handles
    case Submit(id, h, a) =>
      id !in s.jobs && a != 0 && a !in s.heap && h in s.handles && s.handles[h].file.FileOpen?
    case Do(id, act) =>
      id in s.jobs && s.jobs[id].handle in s.handles && Enabled(Load(s, id), act)
    // An overlapped call made past this crate; its address is not one the kernel holds for us.
    case ForeignPacket(p, a) => a !in s.live
    case CancelFile(h) => h in s.handles && s.handles[h].file.FileOpen? && NotSubmitting(s, h)
    case CancelRegistration(h) =>
      h in s.handles && s.handles[h].file.FileCancelled? && s.handles[h].backend.Pool?
    // The wait for outstanding callbacks returns once the pool counts none.
    case DrainRegistration(h) =>
      h in s.handles && s.handles[h].file.RegistrationCancelled? && s.handles[h].pool == 0
    case ReleaseFile(h) =>
      h in s.handles && (if s.handles[h].backend.Pool? then s.handles[h].file.RegistrationDrained?
                         else s.handles[h].file.FileCancelled?)
  }

  /** A `CancelIoEx` on the whole handle. */
  function CancelOnHandle(s: State, h: HandleId, next: FilePc): State
    requires h in s.handles
  {
    var c := s.handles[h];
    s.(handles := s.handles[h := c.(file := next)], fault := s.fault || c.closes > 0)
  }

  function Perform(s: State, step: Step): State
    requires Allowed(s, step)
  {
    match step
    case OpenFile(h, b) => s.(handles := s.handles[h := Cell(1, 0, 0, b, FileOpen)])
    case Submit(id, h, a) =>
      var c := s.handles[h];
      s.(jobs := s.jobs[id := NewJob(a, h, c.backend)], heap := s.heap[a := NewRec(id, h)],
         handles := s.handles[h := c.(refs := c.refs + 1)], fault := s.fault || c.closes > 0)
    case Do(id, act) => Save(s, id, Effect(Load(s, id), act))
    // Untracked like any packet that carries the key, then dispatched; an entry found there would be let go.
    case ForeignPacket(p, a) =>
      s.(pending := s.pending - {(p + 1, a)}, fault := s.fault || (p + 1, a) in s.pending || (a != 0 && a in s.live))
    case CancelFile(h) => CancelOnHandle(s, h, FileCancelled)
    case CancelRegistration(h) => CancelOnHandle(s, h, RegistrationCancelled)
    case DrainRegistration(h) => s.(handles := s.handles[h := s.handles[h].(file := RegistrationDrained)])
    case ReleaseFile(h) =>
      var c := s.handles[h];
      if c.refs == 0 then s.(fault := true)
      else
        s.(handles := s.handles[h := c.(refs := c.refs - 1, closes := c.closes + One(c.refs == 1), file := FileGone)])
  }

  /** What goes wrong in a step is seen in every later state, and so is a step that would leave something at an
      address that is no longer the submission's. */
  lemma FaultsAreSeen(s: State, step: Step)
    requires Allowed(s, step)
    ensures s.fault ==> Perform(s, step).fault
    ensures step.Do? && Effect(Load(s, step.id), step.act).fault ==> Perform(s, step).fault
    ensures (step.Submit? || step.CancelFile? || step.CancelRegistration?) && s.handles[step.h].closes > 0 ==>
              Perform(s, step).fault
    ensures step.ReleaseFile? && s.handles[step.h].refs == 0 ==> Perform(s, step).fault
  {
    hide Effect, Enabled;
  }

  /** Anyone may open a file, submit on an open one at any free address, and close one that is not being submitted
      on. */
  lemma CallersAreFree(s: State, id: JobId, h: HandleId, a: Addr, b: Backend)
    ensures h !in s.handles ==> Allowed(s, OpenFile(h, b))
    ensures h in s.handles && s.handles[h].file.FileOpen? ==>
              && (id !in s.jobs && a != 0 && a !in s.heap ==> Allowed(s, Submit(id, h, a)))
              && ((forall i :: i in s.jobs && s.jobs[i].handle == h ==> !InSubmit(s.jobs[i].owner)) ==>
                    Allowed(s, CancelFile(h)))
  {
  }

  // ---------------------------------------------------------------- the invariant

  function HandleHolders(jobs: map<JobId, Job>, h: HandleId): set<JobId> {
    set id | id in jobs && jobs[id].handle == h && HoldsHandle(jobs[id])
  }

  function OwedCallbacks(jobs: map<JobId, Job>, h: HandleId): set<JobId> {
    set id | id in jobs && jobs[id].handle == h && CallbackOwed(jobs[id])
  }

  predicate HeapInv(s: State) {
    forall a :: a in s.heap ==> a != 0 && s.heap[a].id in s.jobs && s.jobs[s.heap[a].id].addr == a
  }

  predicate ListedInv(s: State, listed: set<(nat, Addr)>)
    requires HeapInv(s)
  {
    forall e :: e in listed ==> e.1 in s.heap && e == EntryOf(s.jobs[s.heap[e.1].id])
  }

  predicate JobInv(s: State, id: JobId)
    requires id in s.jobs
  {
    && s.jobs[id].handle in s.handles
    && s.jobs[id].backend == s.handles[s.jobs[id].handle].backend
    && LocalInv(View(s, id))
  }

  predicate CellInv(s: State, h: HandleId)
    requires h in s.handles
  {
    var c := s.handles[h];
    && c.refs == |HandleHolders(s.jobs, h)| + One(!c.file.FileGone?)
    && c.closes == One(c.refs == 0)
    && c.pool == |OwedCallbacks(s.jobs, h)|
    && (!c.file.FileOpen? ==> NotSubmitting(s, h))
    && (c.file.RegistrationCancelled? || c.file.RegistrationDrained? ==> c.backend.Pool?)
    && (c.backend.Pool? && (c.file.RegistrationDrained? || c.file.FileGone?) ==> OwedCallbacks(s.jobs, h) == {})
  }

  predicate Inv(s: State) {
    && !s.fault
    && HeapInv(s)
    && s.live <= s.heap.Keys
    && ListedInv(s, s.pending)
    && ListedInv(s, s.cancels)
    && (forall id :: id in s.jobs ==> JobInv(s, id))
    && (forall h :: h in s.handles ==> CellInv(s, h))
  }

  const START := State(map[], {}, {}, {}, map[], map[], false)

  // ---------------------------------------------------------------- one submission acts

  /** The invariant of a submission does not read the shared handle cell. */
  lemma BlankingIsHarmless(l: Local, refs: nat, closes: nat, pool: int, fault: bool)
    ensures LocalInv(l) == LocalInv(l.(refs := refs, closes := closes, pool := pool, fault := fault))
  {
  }

  lemma LoadIsSound(s: State, id: JobId)
    requires Inv(s) && id in s.jobs
    ensures s.jobs[id].handle in s.handles && Sound(Load(s, id))
  {
    assert JobInv(s, id);
    var h := s.jobs[id].handle;
    var c := s.handles[h];
    hide LocalInv, HoldsHandle;
    BlankingIsHarmless(View(s, id), c.refs, c.closes, c.pool, false);
    assert CellInv(s, h);
    if HoldsHandle(s.jobs[id]) {
      assert id in HandleHolders(s.jobs, h);
    }
  }

  /** A record that no longer exists is in nobody's list. */
  lemma GoneIsUnlisted(l: Local)
    requires LocalInv(l) && l.rec.None?
    ensures !l.live && !l.pend && !l.canc
  {
    hide HistoryInv, WakeInv, PhaseInv, RaceInv;
  }

  /** A freed record does not come back: no step of its submission takes a reference. */
  lemma GoneStaysGone(l: Local, l': Local)
    requires LocalInv(l) && l.rec.None? && LocalInv(l') && l'.job.hist.frees >= l.job.hist.frees
    ensures l'.rec.None?
  {
    hide HistoryInv, WakeInv, PhaseInv, RaceInv, LiveInv, TableInv, RecInv;
  }

  // ---------------------------------------------------------------- counting holders

  lemma HoldersChange(jobs: map<JobId, Job>, id: JobId, j: Job, h: HandleId)
    requires id in jobs ==> jobs[id].handle == j.handle
    ensures |HandleHolders(jobs[id := j], h)| - |HandleHolders(jobs, h)|
            == if j.handle != h then 0 else One(HoldsHandle(j)) - One(id in jobs && HoldsHandle(jobs[id]))
  {
    hide HoldsHandle;
    var before, after := HandleHolders(jobs, h), HandleHolders(jobs[id := j], h);
    assert after == if j.handle == h && HoldsHandle(j) then before + {id} else before - {id};
  }

  lemma OwedChange(jobs: map<JobId, Job>, id: JobId, j: Job, h: HandleId)
    requires id in jobs ==> jobs[id].handle == j.handle
    ensures |OwedCallbacks(jobs[id := j], h)| - |OwedCallbacks(jobs, h)|
            == if j.handle != h then 0 else One(CallbackOwed(j)) - One(id in jobs && CallbackOwed(jobs[id]))
  {
    hide CallbackOwed;
    var before, after := OwedCallbacks(jobs, h), OwedCallbacks(jobs[id := j], h);
    assert after == if j.handle == h && CallbackOwed(j) then before + {id} else before - {id};
  }

  // ---------------------------------------------------------------- saving what a step did

  /** What saving one submission's step needs of it. */
  predicate Saveable(s: State, id: JobId, l: Local) {
    && id in s.jobs && s.jobs[id].handle in s.handles
    && l.job.addr == s.jobs[id].addr && l.job.handle == s.jobs[id].handle && l.job.backend == s.jobs[id].backend
    && (l.rec.Some? ==> Owns(s, id) && l.rec.value.id == id)
    && (l.rec.None? ==> !l.live && !l.pend && !l.canc)
  }

  /** A step through one pointer moves nobody else, at whatever address they are or were. */
  lemma OthersUnmoved(s: State, id: JobId, l: Local, other: JobId)
    requires Saveable(s, id, l) && HeapInv(s)
    requires other in s.jobs && other != id
    ensures other in Save(s, id, l).jobs && View(Save(s, id, l), other) == View(s, other)
  {
    var s' := Save(s, id, l);
    var a, b := s.jobs[id].addr, s.jobs[other].addr;
    if Owns(s, id) && a == b {
      assert !Owns(s, other) && !Owns(s', other);
    }
  }

  lemma SavedView(s: State, id: JobId, l: Local)
    requires Saveable(s, id, l)
    ensures var s' := Save(s, id, l);
            id in s'.jobs && View(s', id) == l.(refs := 0, closes := 0, pool := 0, fault := false)
  {
  }

  lemma RecordsKept(s: State, id: JobId, l: Local)
    requires Saveable(s, id, l) && HeapInv(s) && s.live <= s.heap.Keys
    ensures var s' := Save(s, id, l); HeapInv(s') && s'.live <= s'.heap.Keys
  {
  }

  lemma PendingKept(s: State, id: JobId, l: Local)
    requires Saveable(s, id, l) && HeapInv(s) && HeapInv(Save(s, id, l)) && ListedInv(s, s.pending)
    ensures var s' := Save(s, id, l); ListedInv(s', s'.pending)
  {
  }

  lemma CancelsKept(s: State, id: JobId, l: Local)
    requires Saveable(s, id, l) && HeapInv(s) && HeapInv(Save(s, id, l)) && ListedInv(s, s.cancels)
    ensures var s' := Save(s, id, l); ListedInv(s', s'.cancels)
  {
  }

  lemma HeapKept(s: State, id: JobId, l: Local)
    requires Saveable(s, id, l) && HeapInv(s) && s.live <= s.heap.Keys
    requires ListedInv(s, s.pending) && ListedInv(s, s.cancels)
    ensures var s' := Save(s, id, l);
            HeapInv(s') && s'.live <= s'.heap.Keys && ListedInv(s', s'.pending) && ListedInv(s', s'.cancels)
  {
    hide HeapInv, ListedInv, Save, Saveable;
    RecordsKept(s, id, l);
    PendingKept(s, id, l);
    CancelsKept(s, id, l);
  }

  /** The step's own account of the handle and pool counts, as `Kept` states it. */
  predicate Accounted(s: State, id: JobId, l: Local)
    requires id in s.jobs && s.jobs[id].handle in s.handles
  {
    var j := s.jobs[id];
    var c := s.handles[j.handle];
    && l.refs - c.refs == One(HoldsHandle(l.job)) - One(HoldsHandle(j))
    && l.closes == c.closes + One(c.refs > 0 && l.refs == 0)
    && l.pool - c.pool == One(CallbackOwed(l.job)) - One(CallbackOwed(j))
    && (InSubmit(l.job.owner) ==> InSubmit(j.owner))
    && (HoldsHandle(l.job) ==> HoldsHandle(j))
    && (CallbackOwed(l.job) ==> CallbackOwed(j) || InSubmit(j.owner))
  }

  lemma CellKept(s: State, id: JobId, l: Local, h: HandleId)
    requires Saveable(s, id, l) && Accounted(s, id, l) && h in s.handles && CellInv(s, h)
    ensures CellInv(Save(s, id, l), h)
  {
    hide HoldsHandle, CallbackOwed, InSubmit;
    var s' := Save(s, id, l);
    assert s'.jobs == s.jobs[id := l.job];
    HoldersChange(s.jobs, id, l.job, h);
    OwedChange(s.jobs, id, l.job, h);
    var c := s.handles[h];
    if !c.file.FileOpen? {
      assert NotSubmitting(s', h);
    }
    if c.backend.Pool? && (c.file.RegistrationDrained? || c.file.FileGone?) {
      assert OwedCallbacks(s'.jobs, h) <= OwedCallbacks(s.jobs, h);
    }
  }

  lemma StepIsSaveable(s: State, id: JobId, act: Act)
    requires Inv(s) && Allowed(s, Do(id, act))
    ensures var l' := Effect(Load(s, id), act);
            Saveable(s, id, l') && Accounted(s, id, l') && LocalInv(l') && !l'.fault
  {
    hide Effect, Enabled, LocalInv, HoldsHandle, CallbackOwed, InSubmit;
    LoadIsSound(s, id);
    var l := Load(s, id);
    StepKept(l, act);
    var l' := Effect(l, act);
    if l'.rec.None? {
      GoneIsUnlisted(l');
    }
    if l.rec.None? {
      GoneStaysGone(l, l');
    }
  }

  lemma DoKept(s: State, id: JobId, act: Act)
    requires Inv(s) && Allowed(s, Do(id, act))
    ensures Inv(Perform(s, Do(id, act)))
  {
    hide Effect, Enabled, LocalInv, Accounted, CellInv;
    StepIsSaveable(s, id, act);
    var l' := Effect(Load(s, id), act);
    var s' := Save(s, id, l');
    HeapKept(s, id, l');
    forall x | x in s'.jobs ensures JobInv(s', x) {
      if x == id {
        SavedView(s, id, l');
        BlankingIsHarmless(l', 0, 0, 0, false);
      } else {
        assert JobInv(s, x);
        OthersUnmoved(s, id, l', x);
      }
    }
    forall h | h in s'.handles ensures CellInv(s', h) {
      CellKept(s, id, l', h);
    }
  }

  // ---------------------------------------------------------------- files, submissions and strangers

  /** An open file keeps its handle open. */
  predicate CellIsOpen(s: State, h: HandleId) {
    h in s.handles && s.handles[h].closes == 0
  }

  lemma FilesKeepHandlesOpen(s: State, h: HandleId)
    requires h in s.handles && CellInv(s, h) && !s.handles[h].file.FileGone?
    ensures CellIsOpen(s, h)
  {
  }

  lemma FreshIsSound(id: JobId, a: Addr, h: HandleId, b: Backend)
    ensures LocalInv(Local(NewJob(a, h, b), Some(NewRec(id, h)), false, false, false, 0, 0, 0, false))
    ensures HoldsHandle(NewJob(a, h, b)) && !CallbackOwed(NewJob(a, h, b))
  {
  }

  lemma SubmitViews(s: State, id: JobId, h: HandleId, a: Addr, other: JobId)
    requires Inv(s) && Allowed(s, Submit(id, h, a)) && other in s.jobs
    ensures View(Perform(s, Submit(id, h, a)), other) == View(s, other)
  {
    hide JobInv, CellInv;
  }

  lemma SubmitCells(s: State, id: JobId, h: HandleId, a: Addr, x: HandleId)
    requires Inv(s) && Allowed(s, Submit(id, h, a)) && x in s.handles
    ensures CellInv(Perform(s, Submit(id, h, a)), x)
  {
    hide LocalInv, HoldsHandle, CallbackOwed, HeapInv, ListedInv, View, JobInv;
    var s' := Perform(s, Submit(id, h, a));
    var j := NewJob(a, h, s.handles[h].backend);
    FreshIsSound(id, a, h, s.handles[h].backend);
    assert CellInv(s, x);
    HoldersChange(s.jobs, id, j, x);
    OwedChange(s.jobs, id, j, x);
    if !s.handles[x].file.FileOpen? {
      assert OwedCallbacks(s'.jobs, x) <= OwedCallbacks(s.jobs, x);
    }
  }

  lemma SubmitJobs(s: State, id: JobId, h: HandleId, a: Addr, x: JobId)
    requires Inv(s) && Allowed(s, Submit(id, h, a))
    requires x in s.jobs || x == id
    ensures JobInv(Perform(s, Submit(id, h, a)), x)
  {
    hide LocalInv, CellInv;
    var s' := Perform(s, Submit(id, h, a));
    var j := NewJob(a, h, s.handles[h].backend);
    if x == id {
      FreshIsSound(id, a, h, s.handles[h].backend);
      assert View(s', id) == Local(j, Some(NewRec(id, h)), false, false, false, 0, 0, 0, false);
    } else {
      assert JobInv(s, x);
      SubmitViews(s, id, h, a, x);
    }
  }

  lemma SubmitKept(s: State, id: JobId, h: HandleId, a: Addr)
    requires Inv(s) && Allowed(s, Submit(id, h, a))
    ensures Inv(Perform(s, Submit(id, h, a)))
  {
    hide JobInv, CellInv, LocalInv;
    var s' := Perform(s, Submit(id, h, a));
    forall x | x in s'.jobs ensures JobInv(s', x) {
      SubmitJobs(s, id, h, a, x);
    }
    forall x | x in s'.handles ensures CellInv(s', x) {
      SubmitCells(s, id, h, a, x);
    }
    FilesKeepHandlesOpen(s, h);
  }

  /** A step that touches one handle cell and no submission. */
  lemma CellStepKept(s: State, h: HandleId, c: Cell)
    requires Inv(s) && (h in s.handles ==> c.backend == s.handles[h].backend)
    requires CellInv(s.(handles := s.handles[h := c]), h)
    ensures Inv(s.(handles := s.handles[h := c]))
  {
    hide LocalInv, CellInv;
    var s' := s.(handles := s.handles[h := c]);
    forall x | x in s'.jobs ensures JobInv(s', x) {
      assert JobInv(s, x) && View(s', x) == View(s, x);
    }
    forall x | x in s'.handles ensures CellInv(s', x) {
      if x != h {
        OtherCell(s, h, c, x);
      }
    }
  }

  lemma OtherCell(s: State, h: HandleId, c: Cell, x: HandleId)
    requires x in s.handles && x != h && CellInv(s, x)
    ensures CellInv(s.(handles := s.handles[h := c]), x)
  {
  }

  /** Nobody submits on a handle that was never opened. */
  lemma UnknownHandleIsUnused(s: State, h: HandleId)
    requires Inv(s) && h !in s.handles
    ensures HandleHolders(s.jobs, h) == {} && OwedCallbacks(s.jobs, h) == {} && NotSubmitting(s, h)
  {
    forall id | id in s.jobs ensures s.jobs[id].handle != h {
      assert JobInv(s, id);
    }
  }

  lemma CancelKept(s: State, h: HandleId, next: FilePc)
    requires Inv(s) && h in s.handles && NotSubmitting(s, h)
    requires next == FileCancelled || next == RegistrationCancelled
    requires s.handles[h].file.FileOpen? || s.handles[h].file.FileCancelled?
    requires next == FileCancelled || s.handles[h].backend.Pool?
    ensures Inv(CancelOnHandle(s, h, next))
  {
    hide JobInv, HandleHolders, OwedCallbacks;
    assert CellInv(s, h);
    CellStepKept(s, h, s.handles[h].(file := next));
  }

  lemma ReleaseKept(s: State, h: HandleId)
    requires Inv(s) && Allowed(s, ReleaseFile(h))
    ensures Inv(Perform(s, ReleaseFile(h)))
  {
    hide JobInv, HandleHolders, OwedCallbacks;
    assert CellInv(s, h);
    var c := s.handles[h];
    CellStepKept(s, h, c.(refs := c.refs - 1, closes := c.closes + One(c.refs == 1), file := FileGone));
  }

  lemma ListedIsLive(l: Local)
    requires LocalInv(l) && l.pend
    ensures l.live
  {
    hide RaceInv, CountInv, RecInv, WakeInv, HistoryInv, PhaseInv;
  }

  /** A packet whose address is not live changes nothing, although the table is searched for it. */
  lemma ForeignIsIgnored(s: State, p: nat, a: Addr)
    requires Inv(s) && a !in s.live
    ensures (p + 1, a) !in s.pending && Perform(s, ForeignPacket(p, a)) == s
  {
    hide LocalInv, CellInv;
    if (p + 1, a) in s.pending {
      var id := s.heap[a].id;
      assert JobInv(s, id);
      ListedIsLive(View(s, id));
      assert false;
    }
    assert s.pending - {(p + 1, a)} == s.pending;
  }

  lemma FileKept(s: State, step: Step)
    requires Inv(s) && Allowed(s, step) && !step.Submit? && !step.Do?
    ensures Inv(Perform(s, step))
  {
    hide JobInv, LocalInv;
    match step
    case OpenFile(h, b) =>
      UnknownHandleIsUnused(s, h);
      CellStepKept(s, h, Cell(1, 0, 0, b, FileOpen));
    case ForeignPacket(p, a) => ForeignIsIgnored(s, p, a);
    case CancelFile(h) => CancelKept(s, h, FileCancelled);
    case CancelRegistration(h) =>
      assert CellInv(s, h);
      CancelKept(s, h, RegistrationCancelled);
    case DrainRegistration(h) =>
      assert CellInv(s, h);
      CellStepKept(s, h, s.handles[h].(file := RegistrationDrained));
    case ReleaseFile(h) => ReleaseKept(s, h);
  }

  /** Every step of the system keeps the invariant. */
  lemma PerformKept(s: State, step: Step)
    requires Inv(s) && Allowed(s, step)
    ensures Inv(Perform(s, step))
  {
    hide Inv, Allowed, Perform;
    match step
    case Submit(id, h, a) => SubmitKept(s, id, h, a);
    case Do(id, act) => DoKept(s, id, act);
    case _ => FileKept(s, step);
  }
}
