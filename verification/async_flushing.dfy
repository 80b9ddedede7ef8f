/** When the wrapped output has been flushed (output/async.go, Flush and Close): what a
    returned Flush and a returned Close say about it, over every interleaving. */
module AsyncFlushing {
  import opened AsyncBuffer
  import opened AsyncProtocol
  import opened AsyncTheorems

  // The steps that call flushInner.
  predicate FlushesInner(s: State, a: Actor) {
    a.Caller? && a.id < |s.calls| && (s.calls[a.id].FlushInner? || s.calls[a.id].CloseFlushing?)
  }

  // Up to which sequence number everything was resolved when the wrapped output was last
  // flushed, if it was so up to f before.
  function FlushedAfter(s: State, a: Actor, f: nat): nat {
    if FlushesInner(s, a) && MinUnresolved(s.sh) > f then MinUnresolved(s.sh) - 1 else f
  }

  /** Every message up to this number was written or dropped before a flush of the wrapped
      output that took place during the schedule. */
  function Flushed(s: State, schedule: seq<Actor>, f: nat): nat
    requires s.sh.capacity > 0 && Runs(s, schedule)
    decreases |schedule|
  {
    if schedule == [] then f else Flushed(Step(s, schedule[0]), schedule[1..], FlushedAfter(s, schedule[0], f))
  }

  predicate CallFlushed(s: State, c: Call, f: nat) {
    match c
    case FlushReturned(t, true) => t <= f
    case FlushReturned(t, false) => s.sh.closed
    case _ => true
  }

  predicate FlushedInv(s: State, f: nat) {
    && Inv(s) && f < MinUnresolved(s.sh)
    && (forall i :: 0 <= i < |s.calls| ==> CallFlushed(s, s.calls[i], f))
    && (s.once.Finished? ==> f == s.sh.enqueuedSeq)
  }

  // A flush covers everything resolved when it begins; afterwards that only grows.
  lemma MinUnresolvedRises(s: State, a: Actor)
    requires Inv(s) && Enabled(s, a)
    ensures MinUnresolved(Step(s, a).sh) >= MinUnresolved(s.sh)
  {
    MinUnresolvedExact(s.sh, s.h);
  }

  lemma FlushCovers(s: State, i: nat)
    requires Inv(s) && i < |s.calls|
    ensures s.calls[i].FlushInner? ==> s.calls[i].target < MinUnresolved(s.sh)
    ensures s.calls[i].CloseFlushing? || s.once.Finished? ==> MinUnresolved(s.sh) == s.sh.enqueuedSeq + 1
  {
    assert CallInv(s, s.calls[i]);
    MinUnresolvedExact(s.sh, s.h);
  }

  lemma ClosedStays(s: State, a: Actor)
    requires s.sh.capacity > 0 && Enabled(s, a)
    ensures s.sh.closed ==> Step(s, a).sh.closed && Step(s, a).sh.enqueuedSeq == s.sh.enqueuedSeq
    ensures s.once.Finished? ==> Step(s, a).once.Finished?
    ensures Step(s, a).once.Finished? && !s.once.Finished? ==> a.Caller? && s.calls[a.id].CloseFlushing?
  {
  }

  // A call that did not move is as flushed as before...
  lemma OtherStaysFlushed(s: State, a: Actor, f: nat, j: nat)
    requires FlushedInv(s, f) && Enabled(s, a) && j < |s.calls| && a != Caller(j)
    ensures CallFlushed(Step(s, a), Step(s, a).calls[j], FlushedAfter(s, a, f))
  {
    assert CallFlushed(s, s.calls[j], f);
    ClosedStays(s, a);
    OnlyWakes(s, a, j);
  }

  lemma OnlyWakes(s: State, a: Actor, j: nat)
    requires s.sh.capacity > 0 && Enabled(s, a) && j < |s.calls| && a != Caller(j)
    ensures Step(s, a).calls[j] == s.calls[j] || Step(s, a).calls[j] == Wake(s.calls[j])
  {
  }

  // ... and one that did has flushed what it waited for, or found the output closed.
  lemma MoverFlushed(s: State, f: nat, j: nat)
    requires FlushedInv(s, f) && Enabled(s, Caller(j))
    ensures CallFlushed(Step(s, Caller(j)), Step(s, Caller(j)).calls[j], FlushedAfter(s, Caller(j), f))
  {
    FlushCovers(s, j);
  }

  lemma StepKeepsFlushed(s: State, a: Actor, f: nat)
    requires FlushedInv(s, f) && Enabled(s, a)
    ensures FlushedInv(Step(s, a), FlushedAfter(s, a, f))
  {
    var r := Step(s, a);
    StepKeeps(s, a);
    MinUnresolvedRises(s, a);
    ClosedStays(s, a);
    forall j | 0 <= j < |r.calls|
      ensures CallFlushed(r, r.calls[j], FlushedAfter(s, a, f))
    {
      if a == Caller(j) {
        MoverFlushed(s, f, j);
      } else {
        OtherStaysFlushed(s, a, f, j);
      }
    }
    if a.Caller? {
      FlushCovers(s, a.id);
    }
  }

  lemma {:induction false} RunKeepsFlushed(s: State, schedule: seq<Actor>, f: nat)
    requires FlushedInv(s, f) && Runs(s, schedule)
    ensures FlushedInv(After(s, schedule), Flushed(s, schedule, f))
    decreases |schedule|
  {
    if schedule != [] {
      StepKeepsFlushed(s, schedule[0], f);
      RunKeepsFlushed(Step(s, schedule[0]), schedule[1..], FlushedAfter(s, schedule[0], f));
    }
  }

  /** A Flush that called flushInner returned after a flush of the wrapped output that covers
      every message enqueued before it; and once any Close has returned, every message there
      ever was is covered. */
  lemma ReturnedIsFlushed(s: State, schedule: seq<Actor>, i: nat)
    requires Start(s) && Runs(s, schedule) && i < |s.calls|
    ensures var c := After(s, schedule).calls[i];
            && (c.FlushReturned? && c.flushed ==> c.target <= Flushed(s, schedule, 0))
            && (c.CloseReturned? ==> Flushed(s, schedule, 0) == After(s, schedule).sh.enqueuedSeq)
  {
    StartInv(s);
    RunKeepsFlushed(s, schedule, 0);
    var r := After(s, schedule);
    assert CallInv(r, r.calls[i]) && CallFlushed(r, r.calls[i], Flushed(s, schedule, 0));
  }

  // ---------------------------------------------------------------- a Flush that found it closed

  /** Whatever happened, a Flush that returned so, while closeOnce was in that state, had its
      messages flushed. */
  ghost predicate AlwaysFlushed(flushed: bool, once: Once) {
    forall s: State, schedule: seq<Actor>, i: nat ::
      Start(s) && Runs(s, schedule) && i < |s.calls| && FlushedSo(After(s, schedule), i, flushed, once) ==>
        After(s, schedule).calls[i].target <= Flushed(s, schedule, 0)
  }

  predicate FlushedSo(r: State, i: nat, flushed: bool, once: Once)
    requires i < |r.calls|
  {
    r.calls[i].FlushReturned? && r.calls[i].flushed == flushed && r.once == once
  }

  lemma FlushedUnlessRunning(s: State, schedule: seq<Actor>, i: nat, flushed: bool, once: Once)
    requires Start(s) && Runs(s, schedule) && i < |s.calls| && FlushedSo(After(s, schedule), i, flushed, once)
    requires flushed || !once.Running?
    ensures After(s, schedule).calls[i].target <= Flushed(s, schedule, 0)
  {
    StartInv(s);
    RunKeepsFlushed(s, schedule, 0);
    var r := After(s, schedule);
    assert CallInv(r, r.calls[i]) && CallFlushed(r, r.calls[i], Flushed(s, schedule, 0));
  }

  // A message is written; a Close sets `closed`, and a Flush returns before the Close has
  // joined the worker: the states of the run.
  function Buffer(closed: bool, queue: seq<Message>, head: nat, inFlight: nat): Shared {
    Shared(1, Block, closed, 0, queue, 1, head, inFlight)
  }

  const WAITING := [WriteReady("m"), CloseReady, FlushReady]
  const WROTE := [WriteReturned("m", true), CloseReady, FlushReady]
  const CLOSES := [WriteReturned("m", true), CloseJoining, FlushReady]
  const RETURNED := [WriteReturned("m", true), CloseJoining, FlushReturned(1, false)]

  const EARLY0 := State(Shared(1, Block, false, 0, [], 0, 0, 0), WAITING, Ready, Unstarted, History([], [], []))
  const EARLY1 := State(Buffer(false, ["m"], 1, 0), WROTE, Ready, Unstarted, History(["m"], [Queued], []))
  const EARLY2 := State(Buffer(false, [], 2, 1), WROTE, Writing("m", 1), Unstarted, History(["m"], [InFlight], ["m"]))
  const EARLY3 := State(Buffer(false, [], 2, 1), WROTE, Resolving(1), Unstarted, History(["m"], [InFlight], ["m"]))
  const EARLY4 := State(Buffer(false, [], 2, 0), WROTE, Ready, Unstarted, History(["m"], [Written], ["m"]))
  const EARLY5 := State(Buffer(true, [], 2, 0), CLOSES, Ready, Running, History(["m"], [Written], ["m"]))
  const EARLY6 := State(Buffer(true, [], 2, 0), RETURNED, Ready, Running, History(["m"], [Written], ["m"]))

  lemma EarlyWrite()
    ensures Enabled(EARLY0, Caller(0)) && Step(EARLY0, Caller(0)) == EARLY1
  {
    var sec := WriteSection(EARLY0.sh, "m");
    assert sec == Section(EARLY1.sh, Enqueued, true);
    assert WakeAll(WROTE) == WROTE;
  }

  lemma EarlyWorker()
    ensures Enabled(EARLY1, TheWorker) && Step(EARLY1, TheWorker) == EARLY2
    ensures Enabled(EARLY2, TheWorker) && Step(EARLY2, TheWorker) == EARLY3
    ensures Enabled(EARLY3, TheWorker) && Step(EARLY3, TheWorker) == EARLY4
  {
    assert WakeAll(WROTE) == WROTE;
    assert WorkerSection(EARLY1.sh) == Section(EARLY2.sh, Taken("m", 1), true);
  }

  lemma EarlyClose()
    ensures Enabled(EARLY4, Caller(1)) && Step(EARLY4, Caller(1)) == EARLY5
    ensures Enabled(EARLY5, Caller(2)) && Step(EARLY5, Caller(2)) == EARLY6
  {
    assert WakeAll(CLOSES) == CLOSES;
    assert WROTE[1 := CloseJoining] == CLOSES && CLOSES[2 := FlushReturned(1, false)] == RETURNED;
  }

  lemma RunsCons(s: State, a: Actor, t: State, rest: seq<Actor>, r: State)
    requires s.sh.capacity > 0 && t.sh.capacity > 0 && Enabled(s, a) && Step(s, a) == t && !FlushesInner(s, a)
    requires Runs(t, rest) && After(t, rest) == r && Flushed(t, rest, 0) == 0
    ensures Runs(s, [a] + rest) && After(s, [a] + rest) == r && Flushed(s, [a] + rest, 0) == 0
  {
    assert ([a] + rest)[1..] == rest;
  }

  lemma EarlyRun() returns (schedule: seq<Actor>)
    ensures Runs(EARLY0, schedule) && After(EARLY0, schedule) == EARLY6 && Flushed(EARLY0, schedule, 0) == 0
  {
    EarlyWrite();
    EarlyWorker();
    EarlyClose();
    schedule := [Caller(2)] + [];
    RunsCons(EARLY5, Caller(2), EARLY6, [], EARLY6);
    RunsCons(EARLY4, Caller(1), EARLY5, schedule, EARLY6);
    schedule := [Caller(1)] + schedule;
    RunsCons(EARLY3, TheWorker, EARLY4, schedule, EARLY6);
    schedule := [TheWorker] + schedule;
    RunsCons(EARLY2, TheWorker, EARLY3, schedule, EARLY6);
    schedule := [TheWorker] + schedule;
    RunsCons(EARLY1, TheWorker, EARLY2, schedule, EARLY6);
    schedule := [TheWorker] + schedule;
    RunsCons(EARLY0, Caller(0), EARLY1, schedule, EARLY6);
    schedule := [Caller(0)] + schedule;
  }

  lemma NotFlushed(s: State, schedule: seq<Actor>, i: nat, flushed: bool, once: Once)
    requires Start(s) && Runs(s, schedule) && i < |s.calls| && FlushedSo(After(s, schedule), i, flushed, once)
    requires Flushed(s, schedule, 0) < After(s, schedule).calls[i].target
    ensures !AlwaysFlushed(flushed, once)
  {
  }

  /** A returned Flush can be relied on exactly when it flushed the wrapped output itself, or
      no Close is under way: one that found the output closed returns at once, although the
      Close that set `closed` may still have its flush before it. */
  lemma AlwaysFlushedIff(flushed: bool, once: Once)
    ensures AlwaysFlushed(flushed, once) <==> flushed || !once.Running?
  {
    if flushed || !once.Running? {
      forall s: State, schedule: seq<Actor>, i: nat |
        Start(s) && Runs(s, schedule) && i < |s.calls| && FlushedSo(After(s, schedule), i, flushed, once)
        ensures After(s, schedule).calls[i].target <= Flushed(s, schedule, 0)
      {
        FlushedUnlessRunning(s, schedule, i, flushed, once);
      }
    } else {
      var schedule := EarlyRun();
      NotFlushed(EARLY0, schedule, 2, flushed, once);
    }
  }
}
