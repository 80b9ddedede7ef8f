/** The asynchronous output as a transition system (output/async.go): any finite set of
    concurrent Write, Flush and Close calls, and one worker, interleaved at the mutex.

    A step is one critical section, or one of the unlocked actions between two of them.
    cond.Wait parks the thread; a broadcast turns every parked thread into a woken one,
    which runs its wait loop again when it is scheduled. A schedule is the sequence of
    threads that take a step, so a statement about all schedules is a statement about
    all interleavings. */
module AsyncProtocol {
  import opened AsyncBuffer

  datatype Call =
    | WriteReady(m: Message)
    | WriteParked(m: Message)
    | WriteWoken(m: Message)
    | WriteReturned(m: Message, accepted: bool)
    | FlushReady
    | FlushParked(target: nat)
    | FlushWoken(target: nat)
    | FlushInner(target: nat)                    // past the wait, calling flushInner
    | FlushReturned(target: nat, flushed: bool)
    | CloseReady
    | CloseJoining                               // inside closeOnce, waiting for the worker
    | CloseFlushing                              // the worker is gone: flushing and closing the wrapped output
    | CloseReturned

  datatype Worker = Ready | Parked | Woken | Writing(m: Message, seqNo: nat) | Resolving(seqNo: nat) | Exited

  datatype Once = Unstarted | Running | Finished

  datatype Fate = Queued | InFlight | Written | Dropped

  // What happened so far: message number i + 1 is enqueued[i], and fate[i] tells where
  // it is; `handed` lists the messages passed to the wrapped output, in order.
  datatype History = History(enqueued: seq<Message>, fate: seq<Fate>, handed: seq<Message>)

  datatype State = State(sh: Shared, calls: seq<Call>, worker: Worker, once: Once, h: History)

  datatype Actor = Caller(id: nat) | TheWorker

  predicate Waiting(c: Call) {
    c.WriteParked? || c.FlushParked?
  }

  predicate Returned(c: Call) {
    c.WriteReturned? || c.FlushReturned? || c.CloseReturned?
  }

  // The call that runs the body of closeOnce.
  predicate Closing(c: Call) {
    c.CloseJoining? || c.CloseFlushing?
  }

  function Wake(c: Call): Call {
    match c
    case WriteParked(m) => WriteWoken(m)
    case FlushParked(t) => FlushWoken(t)
    case _ => c
  }

  function WakeAll(calls: seq<Call>): (r: seq<Call>)
    ensures |r| == |calls|
    ensures forall i :: 0 <= i < |calls| ==> r[i] == Wake(calls[i])
  {
    seq(|calls|, i requires 0 <= i < |calls| => Wake(calls[i]))
  }

  function Broadcast(s: State): State {
    s.(calls := WakeAll(s.calls), worker := if s.worker.Parked? then Woken else s.worker)
  }

  // ---------------------------------------------------------------- steps

  predicate Enabled(s: State, a: Actor) {
    match a
    case TheWorker => !s.worker.Parked? && !s.worker.Exited?
    case Caller(i) =>
      && i < |s.calls|
      && match s.calls[i]
         case CloseReady => s.once.Unstarted? || s.once.Finished?
         case CloseJoining => s.worker.Exited?
         case c => !Waiting(c) && !Returned(c)
  }

  function NoteEnqueued(h: History, m: Message): History {
    h.(enqueued := h.enqueued + [m], fate := h.fate + [Queued])
  }

  function NoteFate(h: History, seqNo: nat, f: Fate): History {
    if 1 <= seqNo <= |h.fate| then h.(fate := h.fate[seqNo - 1 := f]) else h
  }

  function AfterWrite(s: State, i: nat, m: Message, sec: Section): State
    requires i < |s.calls|
  {
    var returned := s.(sh := sec.sh, calls := s.calls[i := WriteReturned(m, !sec.outcome.Refused?)]);
    match sec.outcome
    case Park => s.(calls := s.calls[i := WriteParked(m)])
    case Enqueued => Broadcast(returned.(h := NoteEnqueued(s.h, m)))
    case DroppedOld(_) => Broadcast(returned.(h := NoteEnqueued(NoteFate(s.h, s.sh.headSeq, Dropped), m)))
    case _ => returned
  }

  function AfterFlush(s: State, i: nat, target: nat): State
    requires i < |s.calls|
  {
    var c := match FlushSection(s.sh, target).outcome
             case Park => FlushParked(target)
             case Drained(closed) => if closed then FlushReturned(target, false) else FlushInner(target)
             case _ => s.calls[i];
    s.(calls := s.calls[i := c])
  }

  function AfterClose(s: State, i: nat): State
    requires i < |s.calls|
  {
    if s.once.Finished? then s.(calls := s.calls[i := CloseReturned])
    else Broadcast(s.(sh := CloseSection(s.sh).sh, once := Running, calls := s.calls[i := CloseJoining]))
  }

  function CallStep(s: State, i: nat): State
    requires Enabled(s, Caller(i)) && s.sh.capacity > 0
  {
    match s.calls[i]
    case WriteReady(m) => AfterWrite(s, i, m, WriteSection(s.sh, m))
    case WriteWoken(m) => AfterWrite(s, i, m, Blocked(s.sh, m))
    case FlushReady => AfterFlush(s, i, s.sh.enqueuedSeq)
    case FlushWoken(t) => AfterFlush(s, i, t)
    case FlushInner(t) => s.(calls := s.calls[i := FlushReturned(t, true)])
    case CloseReady => AfterClose(s, i)
    case CloseJoining => s.(calls := s.calls[i := CloseFlushing])
    case CloseFlushing => s.(once := Finished, calls := s.calls[i := CloseReturned])
    case _ => s
  }

  function WorkerStep(s: State): State {
    match s.worker
    case Writing(m, n) => s.(worker := Resolving(n))
    case Resolving(n) => Broadcast(s.(sh := ResolveSection(s.sh).sh, worker := Ready, h := NoteFate(s.h, n, Written)))
    case _ =>
      var sec := WorkerSection(s.sh);
      match sec.outcome
      case Park => s.(worker := Parked)
      case Exit => s.(worker := Exited)
      case Taken(m, n) =>
        var h := NoteFate(s.h, n, InFlight);
        Broadcast(s.(sh := sec.sh, worker := Writing(m, n), h := h.(handed := h.handed + [m])))
      case _ => s
  }

  function Step(s: State, a: Actor): (r: State)
    requires Enabled(s, a) && s.sh.capacity > 0
    ensures r.sh.capacity == s.sh.capacity && r.sh.policy == s.sh.policy && |r.calls| == |s.calls|
  {
    match a
    case TheWorker => WorkerStep(s)
    case Caller(i) => CallStep(s, i)
  }

  /** Every step of the schedule is enabled when it is taken. */
  predicate Runs(s: State, schedule: seq<Actor>)
    requires s.sh.capacity > 0
    decreases |schedule|
  {
    schedule == [] || (Enabled(s, schedule[0]) && Runs(Step(s, schedule[0]), schedule[1..]))
  }

  function After(s: State, schedule: seq<Actor>): (r: State)
    requires s.sh.capacity > 0 && Runs(s, schedule)
    ensures r.sh.capacity == s.sh.capacity && r.sh.policy == s.sh.policy && |r.calls| == |s.calls|
    decreases |schedule|
  {
    if schedule == [] then s else After(Step(s, schedule[0]), schedule[1..])
  }

  /** A freshly built output, its worker just started, and any calls about to be made. */
  predicate Start(s: State) {
    && 0 < s.sh.capacity
    && s.sh == Shared(s.sh.capacity, s.sh.policy, false, 0, [], 0, 0, 0)
    && (forall i :: 0 <= i < |s.calls| ==> s.calls[i].WriteReady? || s.calls[i].FlushReady? || s.calls[i].CloseReady?)
    && s.worker == Ready && s.once == Unstarted && s.h == History([], [], [])
  }

  // ---------------------------------------------------------------- the invariant

  predicate Resolved(h: History, seqNo: nat)
    requires 1 <= seqNo <= |h.fate|
  {
    h.fate[seqNo - 1] == Written || h.fate[seqNo - 1] == Dropped
  }

  /** The messages that were given to the wrapped output, in enqueue order. */
  function Select(enqueued: seq<Message>, fate: seq<Fate>): seq<Message>
    requires |enqueued| == |fate|
  {
    if fate == [] then []
    else
      var n := |fate| - 1;
      Select(enqueued[..n], fate[..n]) + (if fate[n] == InFlight || fate[n] == Written then [enqueued[n]] else [])
  }

  // Sequence numbers: contiguous in the queue, and past the one in flight.
  predicate SeqInv(sh: Shared) {
    && 0 < sh.capacity
    && |sh.queue| <= sh.capacity
    && |sh.queue| <= sh.enqueuedSeq
    && (sh.queue != [] ==> sh.headSeq + |sh.queue| == sh.enqueuedSeq + 1)
    && sh.inFlightSeq + |sh.queue| <= sh.enqueuedSeq
  }

  // Where every message ever enqueued is.
  predicate FateInv(sh: Shared, h: History)
    requires SeqInv(sh)
  {
    && |h.enqueued| == |h.fate| == sh.enqueuedSeq
    && sh.queue == h.enqueued[sh.enqueuedSeq - |sh.queue|..]
    && (forall j :: 0 <= j < |h.fate| ==> (h.fate[j] == Queued <==> j >= sh.enqueuedSeq - |sh.queue|))
    && (forall j :: 0 <= j < |h.fate| ==> (h.fate[j] == InFlight <==> j + 1 == sh.inFlightSeq))
    && (forall j :: 0 <= j < |h.fate| ==> h.fate[j] == Dropped ==> sh.policy.DropOldest?)
    && h.handed == Select(h.enqueued, h.fate)
    && |h.handed| + |sh.queue| + (if sh.policy.DropOldest? then sh.dropped else 0) == sh.enqueuedSeq
  }

  predicate CallInv(s: State, c: Call) {
    match c
    case WriteParked(_) => Full(s.sh) && !s.sh.closed
    case FlushParked(t) => MinUnresolved(s.sh) <= t <= s.sh.enqueuedSeq
    case FlushWoken(t) => t <= s.sh.enqueuedSeq
    case FlushInner(t) => PrefixResolved(s.h, t)
    case FlushReturned(t, _) => PrefixResolved(s.h, t)
    case CloseJoining => s.once.Running?
    case CloseFlushing => s.once.Running? && s.worker.Exited?
    case CloseReturned => s.once.Finished?
    case _ => true
  }

  predicate PrefixResolved(h: History, t: nat) {
    t <= |h.fate| && forall q :: 1 <= q <= t ==> Resolved(h, q)
  }

  predicate WorkerInv(s: State) {
    && (s.worker.Parked? ==> s.sh.queue == [] && !s.sh.closed)
    && (s.worker.Exited? ==> s.sh.queue == [] && s.sh.closed)
    && (s.worker.Writing? || s.worker.Resolving? ==> s.sh.inFlightSeq == s.worker.seqNo)
    && (s.worker.Writing? ==> s.h.handed != [] && s.h.handed[|s.h.handed| - 1] == s.worker.m)
    && (s.sh.inFlightSeq != 0 <==> s.worker.Writing? || s.worker.Resolving?)
    && (s.sh.closed <==> !s.once.Unstarted?)
    && (s.once.Finished? ==> s.worker.Exited?)
    && (s.once.Running? ==> exists i :: 0 <= i < |s.calls| && Closing(s.calls[i]))
  }

  predicate Inv(s: State) {
    && SeqInv(s.sh)
    && FateInv(s.sh, s.h)
    && (forall i :: 0 <= i < |s.calls| ==> CallInv(s, s.calls[i]))
    && WorkerInv(s)
    && JoiningUnique(s)
  }

  predicate JoiningUnique(s: State) {
    forall i, j :: 0 <= i < |s.calls| && 0 <= j < |s.calls| && Closing(s.calls[i]) && Closing(s.calls[j]) ==> i == j
  }

  // ---------------------------------------------------------------- preservation

  lemma {:induction false} SelectPrefix(enqueued: seq<Message>, fate: seq<Fate>, k: nat)
    requires |enqueued| == |fate| && k <= |fate|
    requires forall j :: k <= j < |fate| ==> fate[j] == Queued || fate[j] == Dropped
    ensures Select(enqueued, fate) == Select(enqueued[..k], fate[..k])
  {
    if k < |fate| {
      var n := |fate| - 1;
      assert enqueued[..n][..k] == enqueued[..k] && fate[..n][..k] == fate[..k];
      SelectPrefix(enqueued[..n], fate[..n], k);
    } else {
      assert enqueued[..k] == enqueued && fate[..k] == fate;
    }
  }

  // Select depends only on which messages were handed over.
  lemma {:induction false} SelectSame(enqueued: seq<Message>, f: seq<Fate>, g: seq<Fate>)
    requires |enqueued| == |f| == |g|
    requires forall j :: 0 <= j < |f| ==> (f[j] in {InFlight, Written} <==> g[j] in {InFlight, Written})
    ensures Select(enqueued, f) == Select(enqueued, g)
  {
    if f != [] {
      var n := |f| - 1;
      SelectSame(enqueued[..n], f[..n], g[..n]);
    }
  }

  lemma SelectHanded(enqueued: seq<Message>, f: seq<Fate>, k: nat)
    requires |enqueued| == |f| && k < |f|
    requires forall j :: k <= j < |f| ==> f[j] == Queued
    ensures Select(enqueued, f[k := InFlight]) == Select(enqueued, f) + [enqueued[k]]
  {
    var g := f[k := InFlight];
    SelectPrefix(enqueued, f, k);
    SelectPrefix(enqueued, g, k + 1);
    assert g[..k + 1][..k] == f[..k] && enqueued[..k + 1][..k] == enqueued[..k];
  }

  lemma SelectQueued(h: History, m: Message)
    requires |h.enqueued| == |h.fate|
    ensures var h' := NoteEnqueued(h, m); Select(h'.enqueued, h'.fate) == Select(h.enqueued, h.fate)
  {
    var h' := NoteEnqueued(h, m);
    SelectPrefix(h'.enqueued, h'.fate, |h.fate|);
    assert h'.enqueued[..|h.fate|] == h.enqueued && h'.fate[..|h.fate|] == h.fate;
  }

  lemma KeepEnqueue(sh: Shared, h: History, m: Message)
    requires SeqInv(sh) && FateInv(sh, h) && !Full(sh)
    ensures SeqInv(Enqueue(sh, m)) && FateInv(Enqueue(sh, m), NoteEnqueued(h, m))
  {
    var k := sh.enqueuedSeq - |sh.queue|;
    assert NoteEnqueued(h, m).enqueued[k..] == h.enqueued[k..] + [m];
    SelectQueued(h, m);
  }

  lemma KeepDropOldest(sh: Shared, h: History)
    requires SeqInv(sh) && FateInv(sh, h) && sh.queue != [] && sh.policy.DropOldest?
    ensures var sh' := Dequeue(sh).(dropped := sh.dropped + 1);
            SeqInv(sh') && FateInv(sh', NoteFate(h, sh.headSeq, Dropped))
  {
    var h' := NoteFate(h, sh.headSeq, Dropped);
    SelectSame(h.enqueued, h.fate, h'.fate);
    assert h.enqueued[sh.headSeq - 1..][1..] == h.enqueued[sh.headSeq..];
  }

  lemma KeepTaken(sh: Shared, h: History)
    requires SeqInv(sh) && FateInv(sh, h) && sh.queue != [] && sh.inFlightSeq == 0
    ensures var h' := NoteFate(h, sh.headSeq, InFlight).(handed := h.handed + [sh.queue[0]]);
            var sh' := WorkerSection(sh).sh;
            SeqInv(sh') && FateInv(sh', h')
  {
    SelectHanded(h.enqueued, h.fate, sh.headSeq - 1);
    assert h.enqueued[sh.headSeq - 1..][1..] == h.enqueued[sh.headSeq..];
  }

  lemma KeepResolved(sh: Shared, h: History)
    requires SeqInv(sh) && FateInv(sh, h) && sh.inFlightSeq != 0
    ensures var sh' := ResolveSection(sh).sh;
            SeqInv(sh') && FateInv(sh', NoteFate(h, sh.inFlightSeq, Written))
  {
    SelectSame(h.enqueued, h.fate, NoteFate(h, sh.inFlightSeq, Written).fate);
  }

  /** minUnresolvedSeqLocked is what its comment says: everything below it is resolved,
      and it is itself unresolved unless nothing is. */
  lemma MinUnresolvedExact(sh: Shared, h: History)
    requires SeqInv(sh) && FateInv(sh, h)
    ensures 1 <= MinUnresolved(sh) <= sh.enqueuedSeq + 1
    ensures PrefixResolved(h, MinUnresolved(sh) - 1)
    ensures MinUnresolved(sh) <= sh.enqueuedSeq ==> !Resolved(h, MinUnresolved(sh))
  {
  }

  // Everything a call's invariant depends on only moves forward.
  predicate Forward(s: State, s': State) {
    && |s.h.fate| == s.sh.enqueuedSeq && |s'.h.fate| == s'.sh.enqueuedSeq
    && |s.h.fate| <= |s'.h.fate|
    && (forall q :: 1 <= q <= |s.h.fate| && Resolved(s.h, q) ==> Resolved(s'.h, q))
    && (s.once.Running? ==> s'.once.Running?)
    && (s.once.Finished? ==> s'.once.Finished?)
    && (s.worker.Exited? ==> s'.worker.Exited?)
  }

  // A call that is not itself moving keeps its invariant over a broadcast...
  lemma WokenKeeps(s: State, s': State, c: Call)
    requires Forward(s, s') && CallInv(s, c)
    ensures CallInv(s', Wake(c))
  {
  }

  // ...and over a step that leaves the queue, the sequence numbers and `closed` alone.
  lemma QuietKeeps(s: State, s': State, c: Call)
    requires Forward(s, s') && CallInv(s, c)
    requires s'.sh == s.sh.(dropped := s'.sh.dropped)
    ensures CallInv(s', c)
  {
  }

  // The common shape of the steps: call i (or, past the end, the worker) moved.
  predicate Moved(s: State, r: State, i: nat) {
    && |r.calls| == |s.calls|
    && (forall j :: 0 <= j < |s.calls| && j != i ==> r.calls[j] == s.calls[j])
    && (i < |s.calls| ==> Closing(r.calls[i]) ==> !s.once.Running?)
    && SeqInv(r.sh) && FateInv(r.sh, r.h)
    && Forward(s, r)
  }

  // A call that starts closing is the only one.
  lemma ClosingStaysUnique(s: State, r: State, i: nat)
    requires Inv(s) && Moved(s, r, i)
    ensures JoiningUnique(r)
  {
    forall j | 0 <= j < |s.calls| && Closing(s.calls[j])
      ensures s.once.Running?
    {
      assert CallInv(s, s.calls[j]);
    }
  }

  lemma OthersKeep(s: State, r: State, b: State, i: nat, j: nat)
    requires Inv(s) && Moved(s, r, i) && b == Broadcast(r) && j < |s.calls| && j != i
    ensures CallInv(b, b.calls[j])
  {
    WokenKeeps(s, b, s.calls[j]);
  }

  lemma BroadcastUnique(r: State)
    requires JoiningUnique(r)
    ensures JoiningUnique(Broadcast(r))
  {
  }

  lemma MoverKeeps(r: State, i: nat)
    requires i < |r.calls| && CallInv(r, Wake(r.calls[i]))
    ensures CallInv(Broadcast(r), Broadcast(r).calls[i])
  {
  }

  lemma BroadcastKeeps(s: State, r: State, i: nat)
    requires Inv(s) && Moved(s, r, i)
    requires i < |s.calls| ==> CallInv(r, Wake(r.calls[i]))
    requires WorkerInv(Broadcast(r))
    ensures Inv(Broadcast(r))
  {
    var b := Broadcast(r);
    ClosingStaysUnique(s, r, i);
    BroadcastUnique(r);
    forall j | 0 <= j < |b.calls|
      ensures CallInv(b, b.calls[j])
    {
      if j == i {
        MoverKeeps(r, i);
      } else {
        OthersKeep(s, r, b, i, j);
      }
    }
  }

  lemma QuietStepKeeps(s: State, r: State, i: nat)
    requires Inv(s) && Moved(s, r, i)
    requires r.sh == s.sh.(dropped := r.sh.dropped)
    requires i < |s.calls| ==> CallInv(r, r.calls[i])
    requires WorkerInv(r)
    ensures Inv(r)
  {
    ClosingStaysUnique(s, r, i);
    forall j | 0 <= j < |r.calls|
      ensures CallInv(r, r.calls[j])
    {
      if j != i {
        QuietKeeps(s, r, s.calls[j]);
      }
    }
  }

  // A closer stays where it is when another call moves.
  lemma JoiningStays(s: State, r: State, i: nat)
    requires Inv(s) && s.once.Running? && |r.calls| == |s.calls|
    requires forall j :: 0 <= j < |s.calls| && j != i ==> r.calls[j] == s.calls[j] || r.calls[j] == Wake(s.calls[j])
    requires i < |s.calls| ==> !Closing(s.calls[i])
    ensures exists j :: 0 <= j < |r.calls| && Closing(r.calls[j])
  {
    var j :| 0 <= j < |s.calls| && Closing(s.calls[j]);
    assert Closing(r.calls[j]);
  }

  // The two ways of enqueueing share everything but the history they start from.
  lemma EnqueuedKeeps(s: State, i: nat, m: Message, sh: Shared, h: History)
    requires Inv(s) && i < |s.calls| && !Closing(s.calls[i]) && !s.sh.closed
    requires SeqInv(sh) && FateInv(sh, h) && !Full(sh)
    requires sh.inFlightSeq == s.sh.inFlightSeq && sh.closed == s.sh.closed && h.handed == s.h.handed
    requires Forward(s, s.(sh := sh, h := h))
    ensures Inv(Broadcast(
              s.(sh := Enqueue(sh, m), h := NoteEnqueued(h, m), calls := s.calls[i := WriteReturned(m, true)])))
  {
    var r := s.(sh := Enqueue(sh, m), h := NoteEnqueued(h, m), calls := s.calls[i := WriteReturned(m, true)]);
    KeepEnqueue(sh, h, m);
    assert Forward(s, r);
    if s.once.Running? {
      JoiningStays(s, Broadcast(r), i);
    }
    BroadcastKeeps(s, r, i);
  }

  lemma DroppedOldForward(s: State)
    requires Inv(s) && s.sh.queue != []
    ensures Forward(s, s.(sh := Dequeue(s.sh).(dropped := s.sh.dropped + 1), h := NoteFate(s.h, s.sh.headSeq, Dropped)))
  {
  }

  lemma UnqueuedKeeps(s: State, i: nat, sh: Shared, c: Call)
    requires Inv(s) && i < |s.calls| && (s.calls[i].WriteReady? || s.calls[i].WriteWoken?)
    requires c.WriteReturned? || (c.WriteParked? && Full(s.sh) && !s.sh.closed)
    requires sh == s.sh || (s.sh.policy.DropNewest? && sh == s.sh.(dropped := s.sh.dropped + 1))
    ensures Inv(s.(sh := sh, calls := s.calls[i := c]))
  {
    var r := s.(sh := sh, calls := s.calls[i := c]);
    if s.once.Running? {
      JoiningStays(s, r, i);
    }
    QuietStepKeeps(s, r, i);
  }

  lemma AfterDroppedOld(s: State, i: nat, m: Message)
    requires s.sh.capacity > 0 && Full(s.sh) && !s.sh.closed && s.sh.policy.DropOldest? && i < |s.calls|
    ensures var sh := Dequeue(s.sh).(dropped := s.sh.dropped + 1);
            var h := NoteFate(s.h, s.sh.headSeq, Dropped);
            var calls := s.calls[i := WriteReturned(m, true)];
            AfterWrite(s, i, m, WriteSection(s.sh, m))
              == Broadcast(s.(sh := Enqueue(sh, m), h := NoteEnqueued(h, m), calls := calls))
  {
  }

  lemma DroppedOldKeeps(s: State, i: nat, m: Message)
    requires Inv(s) && i < |s.calls| && s.calls[i].WriteReady?
    requires Full(s.sh) && !s.sh.closed && s.sh.policy.DropOldest?
    ensures Inv(AfterWrite(s, i, m, WriteSection(s.sh, m)))
  {
    var sh := Dequeue(s.sh).(dropped := s.sh.dropped + 1);
    var h := NoteFate(s.h, s.sh.headSeq, Dropped);
    KeepDropOldest(s.sh, s.h);
    DroppedOldForward(s);
    EnqueuedKeeps(s, i, m, sh, h);
    AfterDroppedOld(s, i, m);
  }

  lemma WriteKeeps(s: State, i: nat, m: Message, sec: Section)
    requires Inv(s) && i < |s.calls| && (s.calls[i].WriteReady? || s.calls[i].WriteWoken?)
    requires (sec == WriteSection(s.sh, m) && s.calls[i].WriteReady?) || sec == Blocked(s.sh, m)
    ensures Inv(AfterWrite(s, i, m, sec))
  {
    if sec.outcome.DroppedOld? {
      DroppedOldKeeps(s, i, m);
    } else if sec.outcome.Enqueued? {
      EnqueuedKeeps(s, i, m, s.sh, s.h);
    } else if sec.outcome.Park? {
      UnqueuedKeeps(s, i, s.sh, WriteParked(m));
    } else {
      UnqueuedKeeps(s, i, sec.sh, WriteReturned(m, !sec.outcome.Refused?));
    }
  }

  lemma FlushKeeps(s: State, i: nat, target: nat)
    requires Inv(s) && i < |s.calls| && (s.calls[i].FlushReady? || s.calls[i].FlushWoken?)
    requires target <= s.sh.enqueuedSeq
    ensures Inv(AfterFlush(s, i, target))
  {
    var s' := AfterFlush(s, i, target);
    if s.once.Running? {
      JoiningStays(s, s', i);
    }
    MinUnresolvedExact(s.sh, s.h);
    QuietStepKeeps(s, s', i);
  }

  lemma CloseKeeps(s: State, i: nat)
    requires Inv(s) && i < |s.calls| && s.calls[i].CloseReady? && Enabled(s, Caller(i))
    ensures Inv(AfterClose(s, i))
  {
    if s.once.Finished? {
      QuietStepKeeps(s, AfterClose(s, i), i);
    } else {
      var r := s.(sh := CloseSection(s.sh).sh, once := Running, calls := s.calls[i := CloseJoining]);
      assert Closing(Broadcast(r).calls[i]);
      BroadcastKeeps(s, r, i);
    }
  }

  lemma JoinKeeps(s: State, i: nat)
    requires Inv(s) && i < |s.calls| && s.calls[i].CloseJoining? && s.worker.Exited?
    ensures Inv(CallStep(s, i))
  {
    var r := CallStep(s, i);
    assert CallInv(s, s.calls[i]) && Closing(r.calls[i]);
    forall j | 0 <= j < |r.calls|
      ensures CallInv(r, r.calls[j])
    {
      assert j != i ==> CallInv(s, s.calls[j]);
    }
  }

  lemma FinishKeeps(s: State, i: nat)
    requires Inv(s) && i < |s.calls| && s.calls[i].CloseFlushing?
    ensures Inv(CallStep(s, i))
  {
    var r := CallStep(s, i);
    assert CallInv(s, s.calls[i]);
    forall j | 0 <= j < |r.calls|
      ensures CallInv(r, r.calls[j])
    {
      assert j != i ==> CallInv(s, s.calls[j]);
    }
  }

  lemma TakenKeeps(s: State)
    requires Inv(s) && Enabled(s, TheWorker) && !s.worker.Writing? && !s.worker.Resolving? && s.sh.queue != []
    ensures Inv(WorkerStep(s))
  {
    var h := NoteFate(s.h, s.sh.headSeq, InFlight).(handed := s.h.handed + [s.sh.queue[0]]);
    var r := s.(sh := WorkerSection(s.sh).sh, worker := Writing(s.sh.queue[0], s.sh.headSeq), h := h);
    KeepTaken(s.sh, s.h);
    assert Forward(s, r);
    if s.once.Running? {
      JoiningStays(s, Broadcast(r), |s.calls|);
    }
    BroadcastKeeps(s, r, |s.calls|);
  }

  lemma ResolvedKeeps(s: State)
    requires Inv(s) && s.worker.Resolving?
    ensures Inv(WorkerStep(s))
  {
    var r := s.(sh := ResolveSection(s.sh).sh, worker := Ready, h := NoteFate(s.h, s.worker.seqNo, Written));
    KeepResolved(s.sh, s.h);
    assert Forward(s, r);
    if s.once.Running? {
      JoiningStays(s, Broadcast(r), |s.calls|);
    }
    BroadcastKeeps(s, r, |s.calls|);
  }

  // The inner write, going to sleep, and the exit.
  lemma IdleKeeps(s: State)
    requires Inv(s) && Enabled(s, TheWorker) && !s.worker.Resolving? && (s.worker.Writing? || s.sh.queue == [])
    ensures Inv(WorkerStep(s))
  {
    var r := WorkerStep(s);
    if s.once.Running? {
      JoiningStays(s, r, |s.calls|);
    }
    QuietStepKeeps(s, r, |s.calls|);
  }

  lemma WorkerKeeps(s: State)
    requires Inv(s) && Enabled(s, TheWorker)
    ensures Inv(WorkerStep(s))
  {
    if s.worker.Resolving? {
      ResolvedKeeps(s);
    } else if !s.worker.Writing? && s.sh.queue != [] {
      TakenKeeps(s);
    } else {
      IdleKeeps(s);
    }
  }

  lemma StepKeeps(s: State, a: Actor)
    requires Inv(s) && Enabled(s, a)
    ensures Inv(Step(s, a))
  {
    match a
    case TheWorker => WorkerKeeps(s);
    case Caller(i) =>
      assert CallInv(s, s.calls[i]);
      match s.calls[i]
      case WriteReady(m) => WriteKeeps(s, i, m, WriteSection(s.sh, m));
      case WriteWoken(m) => WriteKeeps(s, i, m, Blocked(s.sh, m));
      case FlushReady => FlushKeeps(s, i, s.sh.enqueuedSeq);
      case FlushWoken(t) => FlushKeeps(s, i, t);
      case FlushInner(t) =>
        if s.once.Running? {
          JoiningStays(s, CallStep(s, i), i);
        }
        QuietStepKeeps(s, CallStep(s, i), i);
      case CloseReady => CloseKeeps(s, i);
      case CloseJoining => JoinKeeps(s, i);
      case CloseFlushing => FinishKeeps(s, i);
      case _ =>
  }

  /** Every state of every run satisfies the invariant. */
  lemma {:induction false} RunKeeps(s: State, schedule: seq<Actor>)
    requires Inv(s) && Runs(s, schedule)
    ensures Inv(After(s, schedule))
    decreases |schedule|
  {
    if schedule != [] {
      StepKeeps(s, schedule[0]);
      RunKeeps(Step(s, schedule[0]), schedule[1..]);
    }
  }
}
