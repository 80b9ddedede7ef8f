/** Delivery guarantees of the asynchronous output over every interleaving: FIFO order,
    conservation of messages, snapshot flushes with a bounded wait, and a drained Close. */
module AsyncDelivery {
  import opened AsyncBuffer
  import opened AsyncProtocol
  import opened AsyncTheorems

  // ---------------------------------------------------------------- order

  predicate Increasing(idx: seq<nat>) {
    forall i, j :: 0 <= i < j < |idx| ==> idx[i] < idx[j]
  }

  // The positions of the messages that were handed over.
  function Positions(fate: seq<Fate>): (idx: seq<nat>)
    ensures forall k :: 0 <= k < |idx| ==> idx[k] < |fate| && fate[idx[k]] in {InFlight, Written}
    ensures Increasing(idx)
  {
    if fate == [] then []
    else
      var n := |fate| - 1;
      Positions(fate[..n]) + (if fate[n] in {InFlight, Written} then [n] else [])
  }

  lemma {:induction false} PositionsComplete(fate: seq<Fate>, j: nat)
    requires j < |fate| && fate[j] in {InFlight, Written}
    ensures j in Positions(fate)
  {
    var n := |fate| - 1;
    if j < n {
      PositionsComplete(fate[..n], j);
    }
  }

  lemma {:induction false} SelectAtPositions(enqueued: seq<Message>, fate: seq<Fate>)
    requires |enqueued| == |fate|
    ensures |Select(enqueued, fate)| == |Positions(fate)|
    ensures forall k :: 0 <= k < |Positions(fate)| ==> Select(enqueued, fate)[k] == enqueued[Positions(fate)[k]]
  {
    if fate != [] {
      var n := |fate| - 1;
      SelectAtPositions(enqueued[..n], fate[..n]);
    }
  }

  /** Under every policy the wrapped output is given an ordered subsequence of the
      enqueued messages: precisely those in flight or written, each once. */
  lemma HandedIsSubsequence(s: State)
    requires Reachable(s)
    ensures |s.h.enqueued| == |s.h.fate|
    ensures var idx := Positions(s.h.fate);
            && Increasing(idx) && |s.h.handed| == |idx|
            && (forall k :: 0 <= k < |idx| ==> s.h.handed[k] == s.h.enqueued[idx[k]])
            && (forall j :: 0 <= j < |s.h.fate| ==> (j in idx <==> s.h.fate[j] in {InFlight, Written}))
  {
    ReachableInv(s);
    SelectAtPositions(s.h.enqueued, s.h.fate);
    forall j | 0 <= j < |s.h.fate| && s.h.fate[j] in {InFlight, Written}
      ensures j in Positions(s.h.fate)
    {
      PositionsComplete(s.h.fate, j);
    }
  }

  lemma {:induction false} SelectAll(enqueued: seq<Message>, fate: seq<Fate>)
    requires |enqueued| == |fate|
    requires forall j :: 0 <= j < |fate| ==> fate[j] == InFlight || fate[j] == Written
    ensures Select(enqueued, fate) == enqueued
  {
    if fate != [] {
      var n := |fate| - 1;
      SelectAll(enqueued[..n], fate[..n]);
    }
  }

  /** Unless the policy drops the oldest message, what the wrapped output was given (the
      message in flight last) followed by the queue is exactly what was enqueued. */
  lemma FifoExact(s: State)
    requires Reachable(s)
    ensures !s.sh.policy.DropOldest? ==> s.h.handed + s.sh.queue == s.h.enqueued
    ensures s.worker.Writing? ==> s.h.handed != [] && s.h.handed[|s.h.handed| - 1] == s.worker.m
    ensures |s.sh.queue| <= s.sh.capacity
  {
    ReachableInv(s);
    var k := s.sh.enqueuedSeq - |s.sh.queue|;
    SelectPrefix(s.h.enqueued, s.h.fate, k);
    if !s.sh.policy.DropOldest? {
      SelectAll(s.h.enqueued[..k], s.h.fate[..k]);
      assert s.h.enqueued == s.h.enqueued[..k] + s.h.enqueued[k..];
    }
  }

  // ---------------------------------------------------------------- conservation

  function Accepted(c: Call): nat {
    if c.WriteReturned? && c.accepted then 1 else 0
  }

  // Every Write that returned nil is accounted for.
  predicate Conserved(s: State) {
    && Total(s.calls, Accepted) == |s.h.handed| + |s.sh.queue| + s.sh.dropped
    && (s.sh.policy.Block? || s.sh.policy.Unlisted? ==> s.sh.dropped == 0)
  }

  lemma AcceptedMoves(s: State, r: State, i: nat)
    requires i < |s.calls| && |r.calls| == |s.calls| && r.calls == s.calls[i := r.calls[i]]
    ensures Total(r.calls, Accepted) + Accepted(s.calls[i]) == Total(s.calls, Accepted) + Accepted(r.calls[i])
    ensures Total(Broadcast(r).calls, Accepted) == Total(r.calls, Accepted)
  {
    TotalUpdate(s.calls, i, r.calls[i], Accepted);
    TotalSame(r.calls, Broadcast(r).calls, Accepted);
  }

  // An accepting Write puts its message in the queue, where an old one may have left it.
  lemma EnqueueConserves(s: State, r: State, i: nat, m: Message)
    requires i < |s.calls| && |r.calls| == |s.calls| && r.calls == s.calls[i := WriteReturned(m, true)]
    requires Accepted(s.calls[i]) == 0 && Conserved(s)
    requires r.sh.policy == s.sh.policy && r.h.handed == s.h.handed
    requires |r.sh.queue| + r.sh.dropped == |s.sh.queue| + s.sh.dropped + 1
    requires r.sh.dropped == s.sh.dropped || !(s.sh.policy.Block? || s.sh.policy.Unlisted?)
    ensures Conserved(Broadcast(r))
  {
    AcceptedMoves(s, r, i);
  }

  lemma WriteConserves(s: State, i: nat, m: Message, sec: Section)
    requires s.sh.capacity > 0 && i < |s.calls| && (s.calls[i] == WriteReady(m) || s.calls[i] == WriteWoken(m))
    requires sec == WriteSection(s.sh, m) || sec == Blocked(s.sh, m)
    requires Conserved(s)
    ensures Conserved(AfterWrite(s, i, m, sec))
  {
    var r := s.(sh := sec.sh, calls := s.calls[i := WriteReturned(m, true)]);
    if sec.outcome.DroppedOld? {
      EnqueueConserves(s, r.(h := NoteEnqueued(NoteFate(s.h, s.sh.headSeq, Dropped), m)), i, m);
    } else if sec.outcome.Enqueued? {
      EnqueueConserves(s, r.(h := NoteEnqueued(s.h, m)), i, m);
    } else {
      AcceptedMoves(s, AfterWrite(s, i, m, sec), i);
    }
  }

  lemma CallConserves(s: State, i: nat)
    requires s.sh.capacity > 0 && Enabled(s, Caller(i)) && Conserved(s)
    ensures Conserved(Step(s, Caller(i)))
  {
    var c := s.calls[i];
    if c.WriteReady? {
      WriteConserves(s, i, c.m, WriteSection(s.sh, c.m));
    } else if c.WriteWoken? {
      WriteConserves(s, i, c.m, Blocked(s.sh, c.m));
    } else if c.CloseReady? && !s.once.Finished? {
      AcceptedMoves(s, s.(sh := CloseSection(s.sh).sh, once := Running, calls := s.calls[i := CloseJoining]), i);
    } else {
      AcceptedMoves(s, CallStep(s, i), i);
    }
  }

  lemma WorkerConserves(s: State)
    requires Conserved(s)
    ensures Conserved(WorkerStep(s))
  {
    TotalSame(s.calls, WakeAll(s.calls), Accepted);
  }

  lemma {:induction false} RunConserves(s: State, schedule: seq<Actor>)
    requires s.sh.capacity > 0 && Runs(s, schedule) && Conserved(s)
    ensures Conserved(After(s, schedule))
    decreases |schedule|
  {
    if schedule != [] {
      match schedule[0] {
        case TheWorker => WorkerConserves(s);
        case Caller(i) => CallConserves(s, i);
      }
      RunConserves(Step(s, schedule[0]), schedule[1..]);
    }
  }

  /** Whatever the policy: the Writes that returned nil are exactly the messages handed
      over, the messages still queued, and the messages the drop counter reports. */
  lemma NothingVanishes(s: State)
    requires Reachable(s)
    ensures Total(s.calls, Accepted) == |s.h.handed| + |s.sh.queue| + s.sh.dropped
    ensures s.sh.policy.Block? || s.sh.policy.Unlisted? ==> s.sh.dropped == 0
    ensures s.sh.policy.DropOldest? ==> |s.h.enqueued| == |s.h.handed| + |s.sh.queue| + s.sh.dropped
    ensures s.sh.policy.DropNewest? ==> Total(s.calls, Accepted) == |s.h.enqueued| + s.sh.dropped
  {
    var s0, schedule :| Start(s0) && Runs(s0, schedule) && After(s0, schedule) == s;
    TotalAtMost(s0.calls, 0, Accepted);
    RunConserves(s0, schedule);
    ReachableInv(s);
  }

  // ---------------------------------------------------------------- flush

  predicate Completes(s: State, a: Actor) {
    a.TheWorker? && s.worker.Resolving?
  }

  // How many inner writes the worker completes during the schedule.
  function Completions(s: State, schedule: seq<Actor>): nat
    requires s.sh.capacity > 0 && Runs(s, schedule)
    decreases |schedule|
  {
    if schedule == [] then 0
    else (if Completes(s, schedule[0]) then 1 else 0) + Completions(Step(s, schedule[0]), schedule[1..])
  }

  lemma MinUnresolvedStep(s: State, a: Actor)
    requires Inv(s) && Enabled(s, a)
    ensures MinUnresolved(Step(s, a).sh) >= MinUnresolved(s.sh) + (if Completes(s, a) then 1 else 0)
  {
    MinUnresolvedExact(s.sh, s.h);
  }

  /** The lowest unresolved sequence number never falls, and every completed inner write
      raises it, however many messages arrive or are dropped meanwhile. */
  lemma {:induction false} MinUnresolvedGrows(s: State, schedule: seq<Actor>)
    requires Inv(s) && Runs(s, schedule)
    ensures MinUnresolved(After(s, schedule).sh) >= MinUnresolved(s.sh) + Completions(s, schedule)
    decreases |schedule|
  {
    if schedule != [] {
      MinUnresolvedStep(s, schedule[0]);
      StepKeeps(s, schedule[0]);
      MinUnresolvedGrows(Step(s, schedule[0]), schedule[1..]);
    }
  }

  // How many messages up to the target are still queued or in flight.
  function Left(sh: Shared, target: nat): nat {
    (if 0 < sh.inFlightSeq <= target then 1 else 0) +
    (if sh.queue != [] && sh.headSeq <= target then target - sh.headSeq + 1 else 0)
  }

  lemma LeftStep(s: State, a: Actor, target: nat)
    requires Inv(s) && Enabled(s, a) && target <= s.sh.enqueuedSeq
    ensures var l := Left(Step(s, a).sh, target);
            l > 0 ==> l + (if Completes(s, a) then 1 else 0) <= Left(s.sh, target)
  {
  }

  lemma {:induction false} LeftShrinks(s: State, schedule: seq<Actor>, target: nat)
    requires Inv(s) && Runs(s, schedule) && target <= s.sh.enqueuedSeq
    ensures var l := Left(After(s, schedule).sh, target);
            l > 0 ==> l + Completions(s, schedule) <= Left(s.sh, target)
    decreases |schedule|
  {
    if schedule != [] {
      LeftStep(s, schedule[0], target);
      StepKeeps(s, schedule[0]);
      EnqueuedGrows(s, schedule[0]);
      LeftShrinks(Step(s, schedule[0]), schedule[1..], target);
    }
  }

  lemma EnqueuedGrows(s: State, a: Actor)
    requires s.sh.capacity > 0 && Enabled(s, a)
    ensures Step(s, a).sh.enqueuedSeq >= s.sh.enqueuedSeq
  {
  }

  predicate PastWait(c: Call, target: nat) {
    c == FlushInner(target) || c == FlushReturned(target, true) || c == FlushReturned(target, false)
  }

  predicate Chasing(c: Call, target: nat) {
    c == FlushParked(target) || c == FlushWoken(target) || PastWait(c, target)
  }

  // A flusher keeps the target it took on entry.
  lemma {:induction false} TargetKept(s: State, schedule: seq<Actor>, i: nat, target: nat)
    requires Inv(s) && Runs(s, schedule) && i < |s.calls| && Chasing(s.calls[i], target)
    ensures Chasing(After(s, schedule).calls[i], target)
    decreases |schedule|
  {
    if schedule != [] {
      var a := schedule[0];
      StepKeeps(s, a);
      TargetKeptOnce(s, a, i, target);
      TargetKept(Step(s, a), schedule[1..], i, target);
    }
  }

  lemma TargetKeptOnce(s: State, a: Actor, i: nat, target: nat)
    requires s.sh.capacity > 0 && Enabled(s, a) && i < |s.calls| && Chasing(s.calls[i], target)
    ensures Chasing(Step(s, a).calls[i], target)
  {
  }

  lemma FlushEntry(s: State, i: nat)
    requires Inv(s) && i < |s.calls| && s.calls[i].FlushReady?
    ensures var s1 := Step(s, Caller(i));
            Inv(s1) && Chasing(s1.calls[i], s.sh.enqueuedSeq) && s1.sh == s.sh
    ensures Left(s.sh, s.sh.enqueuedSeq) <= s.sh.capacity + 1
  {
    StepKeeps(s, Caller(i));
  }

  lemma WokenFlushLeaves(r: State, i: nat, target: nat)
    requires r.sh.capacity > 0 && i < |r.calls| && r.calls[i] == FlushWoken(target) && MinUnresolved(r.sh) > target
    ensures PastWait(Step(r, Caller(i)).calls[i], target)
  {
  }

  // A resolved message was written, or dropped by the one policy that does so.
  predicate AllSettled(s: State, target: nat) {
    target <= |s.h.fate| && forall q :: 0 <= q < target ==>
      (s.h.fate[q] == Written || (s.h.fate[q] == Dropped && s.sh.policy.DropOldest?))
  }

  lemma PastWaitSettled(r: State, i: nat, target: nat)
    requires Inv(r) && i < |r.calls| && PastWait(r.calls[i], target)
    ensures AllSettled(r, target)
  {
    assert CallInv(r, r.calls[i]);
    forall q | 0 <= q < target
      ensures r.h.fate[q] == Written || (r.h.fate[q] == Dropped && r.sh.policy.DropOldest?)
    {
      assert Resolved(r.h, q + 1);
    }
  }

  /** Snapshot: when a Flush that entered in state s is past its wait, every message
      enqueued before it entered was written, or was dropped by DropOldest, whatever the
      other calls did meanwhile. */
  lemma FlushIsSnapshot(s: State, i: nat, schedule: seq<Actor>)
    requires Reachable(s) && i < |s.calls| && s.calls[i].FlushReady?
    requires Runs(Step(s, Caller(i)), schedule)
    ensures var r := After(Step(s, Caller(i)), schedule);
            PastWait(r.calls[i], s.sh.enqueuedSeq) ==> AllSettled(r, s.sh.enqueuedSeq)
  {
    ReachableInv(s);
    FlushEntry(s, i);
    var s1 := Step(s, Caller(i));
    RunKeeps(s1, schedule);
    if PastWait(After(s1, schedule).calls[i], s.sh.enqueuedSeq) {
      PastWaitSettled(After(s1, schedule), i, s.sh.enqueuedSeq);
    }
  }

  lemma LeftIsUnresolved(sh: Shared, target: nat)
    requires SeqInv(sh) && target <= sh.enqueuedSeq
    ensures Left(sh, target) == 0 <==> MinUnresolved(sh) > target
  {
  }

  // What LeftShrinks means for a flusher that is still waiting.
  lemma WaitingFlushIsShort(s1: State, r: State, c: Call, target: nat, completions: nat)
    requires Inv(r) && CallInv(r, c) && r.sh.capacity == s1.sh.capacity
    requires Left(s1.sh, target) <= s1.sh.capacity + 1
    requires var l := Left(r.sh, target); l > 0 ==> l + completions <= Left(s1.sh, target)
    ensures c == FlushParked(target) ==> completions <= s1.sh.capacity
    ensures c == FlushWoken(target) && completions > s1.sh.capacity ==> MinUnresolved(r.sh) > target
  {
    if c == FlushParked(target) || c == FlushWoken(target) {
      LeftIsUnresolved(r.sh, target);
    }
  }

  /** Bounded wait: while the flusher sleeps the worker completes at most `capacity` inner
      writes; after one more it is awake or past, and awake, its next step leaves the wait.
      The flusher always pursues the sequence number it read on entry. */
  lemma FlushWaitIsBounded(s: State, i: nat, schedule: seq<Actor>)
    requires Reachable(s) && i < |s.calls| && s.calls[i].FlushReady?
    requires Runs(Step(s, Caller(i)), schedule)
    ensures var s1 := Step(s, Caller(i));
            var r := After(s1, schedule);
            var target := s.sh.enqueuedSeq;
            && Chasing(r.calls[i], target)
            && (r.calls[i].FlushParked? ==> Completions(s1, schedule) <= s.sh.capacity)
            && (Completions(s1, schedule) > s.sh.capacity ==>
                  PastWait(r.calls[i], target) ||
                  (r.calls[i].FlushWoken? && PastWait(Step(r, Caller(i)).calls[i], target)))
  {
    ReachableInv(s);
    FlushEntry(s, i);
    var s1 := Step(s, Caller(i));
    var r := After(s1, schedule);
    RunKeeps(s1, schedule);
    TargetKept(s1, schedule, i, s.sh.enqueuedSeq);
    LeftShrinks(s1, schedule, s.sh.enqueuedSeq);
    WaitingFlushIsShort(s1, r, r.calls[i], s.sh.enqueuedSeq, Completions(s1, schedule));
    if Completions(s1, schedule) > s.sh.capacity && r.calls[i].FlushWoken? {
      WokenFlushLeaves(r, i, s.sh.enqueuedSeq);
    }
  }

  // ---------------------------------------------------------------- close

  /** Once any Close has returned, the worker is gone, nothing is queued or in flight, and
      every message ever enqueued was written, or dropped by DropOldest. */
  lemma CloseDrains(s: State, i: nat)
    requires Reachable(s) && i < |s.calls| && s.calls[i].CloseReturned?
    ensures s.sh.closed && s.worker.Exited? && s.sh.queue == [] && s.sh.inFlightSeq == 0
    ensures forall j :: 0 <= j < |s.h.fate| ==>
              s.h.fate[j] == Written || (s.h.fate[j] == Dropped && s.sh.policy.DropOldest?)
    ensures !s.sh.policy.DropOldest? ==> s.h.handed == s.h.enqueued
  {
    ReachableInv(s);
    assert CallInv(s, s.calls[i]);
    FifoExact(s);
    assert forall j :: 0 <= j < |s.h.fate| ==> s.h.fate[j] in {Queued, InFlight, Written, Dropped};
  }

  lemma ClosedRefusesOnce(s: State, a: Actor)
    requires s.sh.capacity > 0 && s.sh.closed && Enabled(s, a)
    ensures var r := Step(s, a);
            && r.sh.closed && r.h.enqueued == s.h.enqueued
            && (forall i :: 0 <= i < |s.calls| ==>
                  if s.calls[i].WriteReturned? then r.calls[i] == s.calls[i]
                  else r.calls[i].WriteReturned? ==> !r.calls[i].accepted)
  {
  }

  /** From the moment `closed` is set nothing more is enqueued, and every Write that has
      not returned by then, parked ones included, is refused. */
  lemma {:induction false} ClosedRefuses(s: State, schedule: seq<Actor>)
    requires s.sh.capacity > 0 && s.sh.closed && Runs(s, schedule)
    ensures var r := After(s, schedule);
            && r.sh.closed && r.h.enqueued == s.h.enqueued
            && (forall i :: 0 <= i < |s.calls| ==>
                  if s.calls[i].WriteReturned? then r.calls[i] == s.calls[i]
                  else r.calls[i].WriteReturned? ==> !r.calls[i].accepted)
    decreases |schedule|
  {
    if schedule != [] {
      ClosedRefusesOnce(s, schedule[0]);
      ClosedRefuses(Step(s, schedule[0]), schedule[1..]);
    }
  }
}
