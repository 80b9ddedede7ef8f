/** Liveness of the asynchronous output over every interleaving: no lost wake-up, no
    deadlock, and every call returns. What is delivered is in AsyncDelivery. */
module AsyncTheorems {
  import opened AsyncBuffer
  import opened AsyncProtocol

  ghost predicate Reachable(s: State) {
    exists s0, schedule ::
      && Start(s0) && Runs(s0, schedule)
      && After(s0, schedule) == s
  }

  lemma StartInv(s: State)
    requires Start(s)
    ensures Inv(s)
  {
  }

  lemma ReachableInv(s: State)
    requires Reachable(s)
    ensures Inv(s)
  {
    var s0, schedule :| Start(s0) && Runs(s0, schedule) && After(s0, schedule) == s;
    StartInv(s0);
    RunKeeps(s0, schedule);
  }

  // ---------------------------------------------------------------- wake-ups

  /** A thread sleeps in cond.Wait only while what it waits for is false, and then the
      worker is awake and has a step to take. */
  lemma NoLostWakeup(s: State)
    requires Reachable(s)
    ensures forall i :: 0 <= i < |s.calls| && s.calls[i].WriteParked? ==> Full(s.sh) && !s.sh.closed
    ensures forall i :: 0 <= i < |s.calls| && s.calls[i].FlushParked? ==> MinUnresolved(s.sh) <= s.calls[i].target
    ensures s.worker.Parked? ==> s.sh.queue == [] && !s.sh.closed
    ensures (exists i :: 0 <= i < |s.calls| && (Waiting(s.calls[i]) || s.calls[i].CloseJoining?))
              ==> Enabled(s, TheWorker) || s.worker.Exited?
    ensures (exists i :: 0 <= i < |s.calls| && Waiting(s.calls[i])) ==> Enabled(s, TheWorker)
  {
    ReachableInv(s);
    forall i | 0 <= i < |s.calls|
      ensures CallInv(s, s.calls[i])
    {
    }
  }

  // Whoever is not finished, somebody can move.
  lemma SomeoneMoves(s: State, i: nat)
    requires Inv(s) && i < |s.calls| && !Returned(s.calls[i])
    ensures exists a :: Enabled(s, a)
  {
    if !Enabled(s, TheWorker) && !Enabled(s, Caller(i)) {
      assert CallInv(s, s.calls[i]);
      if s.once.Running? {
        var j :| 0 <= j < |s.calls| && Closing(s.calls[j]);
        assert Enabled(s, Caller(j));
      }
    }
  }

  /** The system stops only when there is nothing left to do: a reachable state without a
      step has every call returned, nothing queued or in flight, and the worker asleep,
      or gone if the output was closed. */
  lemma NoDeadlock(s: State)
    requires Reachable(s)
    ensures (exists a :: Enabled(s, a)) ||
            ( && (forall i :: 0 <= i < |s.calls| ==> Returned(s.calls[i]))
              && s.sh.queue == [] && s.sh.inFlightSeq == 0
              && (if s.sh.closed then s.worker.Exited? else s.worker.Parked?))
  {
    ReachableInv(s);
    if i :| 0 <= i < |s.calls| && !Returned(s.calls[i]) {
      SomeoneMoves(s, i);
    } else if !s.worker.Parked? && !s.worker.Exited? {
      assert Enabled(s, TheWorker);
    }
  }

  // ---------------------------------------------------------------- termination

  function Total(calls: seq<Call>, weight: Call -> nat): nat {
    if calls == [] then 0 else weight(calls[0]) + Total(calls[1..], weight)
  }

  lemma {:induction false} TotalUpdate(calls: seq<Call>, i: nat, c: Call, weight: Call -> nat)
    requires i < |calls|
    ensures Total(calls[i := c], weight) + weight(calls[i]) == Total(calls, weight) + weight(c)
  {
    if i == 0 {
      assert calls[i := c][1..] == calls[1..];
    } else {
      assert calls[i := c][1..] == calls[1..][i - 1 := c];
      TotalUpdate(calls[1..], i - 1, c, weight);
    }
  }

  lemma {:induction false} TotalSame(a: seq<Call>, b: seq<Call>, weight: Call -> nat)
    requires |a| == |b| && forall i :: 0 <= i < |a| ==> weight(a[i]) == weight(b[i])
    ensures Total(a, weight) == Total(b, weight)
  {
    if a != [] {
      TotalSame(a[1..], b[1..], weight);
    }
  }

  lemma {:induction false} TotalAtMost(calls: seq<Call>, k: nat, weight: Call -> nat)
    requires forall i :: 0 <= i < |calls| ==> weight(calls[i]) <= k
    ensures Total(calls, weight) <= k * |calls|
  {
    if calls != [] {
      TotalAtMost(calls[1..], k, weight);
    }
  }

  // Work that only a broadcasting step can reduce.
  function Pending(c: Call): nat {
    match c
    case WriteReady(_) => 3
    case WriteParked(_) => 3
    case WriteWoken(_) => 3
    case CloseReady => 1
    case _ => 0
  }

  // How far a thread is from its next rest.
  function Phase(c: Call): nat {
    match c
    case WriteReady(_) => 2
    case WriteWoken(_) => 2
    case WriteParked(_) => 1
    case FlushReady => 3
    case FlushWoken(_) => 3
    case FlushParked(_) => 2
    case FlushInner(_) => 1
    case CloseReady => 3
    case CloseJoining => 2
    case CloseFlushing => 1
    case _ => 0
  }

  function WorkerPhase(w: Worker): nat {
    match w
    case Ready => 2
    case Woken => 2
    case Writing(_, _) => 2
    case Parked => 1
    case Resolving(_) => 1
    case Exited => 0
  }

  function Backlog(s: State): nat {
    Total(s.calls, Pending) + 2 * |s.sh.queue| + (if s.sh.inFlightSeq != 0 then 1 else 0)
  }

  function Progress(s: State): nat {
    Total(s.calls, Phase) + WorkerPhase(s.worker)
  }

  predicate Descends(s: State, s': State) {
    Backlog(s') < Backlog(s) || (Backlog(s') == Backlog(s) && Progress(s') < Progress(s))
  }

  lemma BacklogBroadcast(s: State)
    ensures Backlog(Broadcast(s)) == Backlog(s)
  {
    TotalSame(s.calls, WakeAll(s.calls), Pending);
  }

  lemma ProgressBounded(s: State)
    ensures Progress(s) <= 3 * |s.calls| + 2
  {
    TotalAtMost(s.calls, 3, Phase);
  }

  // Moving one call from c to c', then possibly broadcasting, changes the totals so.
  lemma CallMoves(s: State, r: State, i: nat)
    requires i < |s.calls| && |r.calls| == |s.calls|
    requires r.calls == s.calls[i := r.calls[i]]
    ensures Total(r.calls, Pending) + Pending(s.calls[i]) == Total(s.calls, Pending) + Pending(r.calls[i])
    ensures Total(r.calls, Phase) + Phase(s.calls[i]) == Total(s.calls, Phase) + Phase(r.calls[i])
    ensures Backlog(Broadcast(r)) == Backlog(r)
  {
    TotalUpdate(s.calls, i, r.calls[i], Pending);
    TotalUpdate(s.calls, i, r.calls[i], Phase);
    BacklogBroadcast(r);
  }

  // A step that broadcasts must lower the backlog; one that does not may only move a call.
  lemma BroadcastDescends(s: State, r: State, i: nat)
    requires i < |s.calls| && |r.calls| == |s.calls| && r.calls == s.calls[i := r.calls[i]]
    requires r.sh.inFlightSeq == s.sh.inFlightSeq
    requires Pending(r.calls[i]) + 2 * |r.sh.queue| < Pending(s.calls[i]) + 2 * |s.sh.queue|
    ensures Descends(s, Broadcast(r))
  {
    CallMoves(s, r, i);
  }

  lemma QuietDescends(s: State, r: State, i: nat)
    requires i < |s.calls| && |r.calls| == |s.calls| && r.calls == s.calls[i := r.calls[i]]
    requires r.sh.inFlightSeq == s.sh.inFlightSeq && r.sh.queue == s.sh.queue && r.worker == s.worker
    requires Pending(r.calls[i]) < Pending(s.calls[i]) ||
             (Pending(r.calls[i]) == Pending(s.calls[i]) && Phase(r.calls[i]) < Phase(s.calls[i]))
    ensures Descends(s, r)
  {
    CallMoves(s, r, i);
  }

  lemma WriteDescends(s: State, i: nat, m: Message, sec: Section)
    requires s.sh.capacity > 0 && i < |s.calls| && (s.calls[i] == WriteReady(m) || s.calls[i] == WriteWoken(m))
    requires sec == WriteSection(s.sh, m) || sec == Blocked(s.sh, m)
    ensures Descends(s, AfterWrite(s, i, m, sec))
  {
    if sec.outcome.DroppedOld? {
      var h := NoteEnqueued(NoteFate(s.h, s.sh.headSeq, Dropped), m);
      BroadcastDescends(s, s.(sh := sec.sh, calls := s.calls[i := WriteReturned(m, true)], h := h), i);
    } else if sec.outcome.Enqueued? {
      var h := NoteEnqueued(s.h, m);
      BroadcastDescends(s, s.(sh := sec.sh, calls := s.calls[i := WriteReturned(m, true)], h := h), i);
    } else {
      QuietDescends(s, AfterWrite(s, i, m, sec), i);
    }
  }

  lemma CloseDescends(s: State, i: nat)
    requires Enabled(s, Caller(i)) && s.calls[i].CloseReady?
    ensures Descends(s, AfterClose(s, i))
  {
    if s.once.Finished? {
      QuietDescends(s, AfterClose(s, i), i);
    } else {
      BroadcastDescends(s, s.(sh := CloseSection(s.sh).sh, once := Running, calls := s.calls[i := CloseJoining]), i);
    }
  }

  lemma CallDescends(s: State, i: nat)
    requires s.sh.capacity > 0 && Enabled(s, Caller(i))
    ensures Descends(s, Step(s, Caller(i)))
  {
    var c := s.calls[i];
    if c.WriteReady? {
      WriteDescends(s, i, c.m, WriteSection(s.sh, c.m));
    } else if c.WriteWoken? {
      WriteDescends(s, i, c.m, Blocked(s.sh, c.m));
    } else if c.CloseReady? {
      CloseDescends(s, i);
    } else {
      QuietDescends(s, CallStep(s, i), i);
    }
  }

  lemma WorkerDescends(s: State)
    requires Inv(s) && Enabled(s, TheWorker)
    ensures Descends(s, WorkerStep(s))
  {
    if s.worker.Resolving? {
      BacklogBroadcast(s.(sh := ResolveSection(s.sh).sh, worker := Ready, h := NoteFate(s.h, s.worker.seqNo, Written)));
    } else if !s.worker.Writing? && s.sh.queue != [] {
      var h := NoteFate(s.h, s.sh.headSeq, InFlight);
      BacklogBroadcast(s.(sh := WorkerSection(s.sh).sh, worker := Writing(s.sh.queue[0], s.sh.headSeq),
                          h := h.(handed := h.handed + [s.sh.queue[0]])));
    }
  }

  function Rank(s: State): nat {
    Backlog(s) * (3 * |s.calls| + 3) + Progress(s)
  }

  lemma {:induction false} Multiples(a: nat, b: nat, k: nat)
    requires a < b
    ensures a * k + k <= b * k
  {
    assert b * k == (b - 1) * k + k;
    if a < b - 1 {
      Multiples(a, b - 1, k);
    }
  }

  lemma Lexicographic(b': nat, p': nat, b: nat, p: nat, k: nat)
    requires b' < b || (b' == b && p' < p)
    requires p' < k
    ensures b' * k + p' < b * k + p
  {
    if b' < b {
      Multiples(b', b, k);
    }
  }

  lemma RankDrops(s: State, s': State)
    requires Descends(s, s') && |s'.calls| == |s.calls|
    ensures Rank(s') < Rank(s)
  {
    ProgressBounded(s');
    Lexicographic(Backlog(s'), Progress(s'), Backlog(s), Progress(s), 3 * |s.calls| + 3);
  }

  /** Every call returns: no schedule is longer than the rank of the state it starts in,
      so, with NoDeadlock, every run that is not cut short ends with all calls returned. */
  lemma {:induction false} EveryRunEnds(s: State, schedule: seq<Actor>)
    requires Inv(s) && Runs(s, schedule)
    ensures |schedule| + Rank(After(s, schedule)) <= Rank(s)
    decreases |schedule|
  {
    if schedule != [] {
      var a := schedule[0];
      if a.TheWorker? {
        WorkerDescends(s);
      } else {
        CallDescends(s, a.id);
      }
      RankDrops(s, Step(s, a));
      StepKeeps(s, a);
      EveryRunEnds(Step(s, a), schedule[1..]);
    }
  }
}
