/** What a Write does (output/async.go, Write and the policies), step by step and over every
    run: when it is accepted, when it drops, when it waits, and when it is refused. */
module AsyncPolicies {
  import opened AsyncBuffer
  import opened AsyncProtocol

  predicate Drops(p: Policy) {
    p == DropNewest || p == DropOldest
  }

  // Call i is about to take the critical section of a Write, for the first time or again.
  predicate AboutToWrite(s: State, i: nat, m: Message) {
    s.sh.capacity > 0 && i < |s.calls| && (s.calls[i] == WriteReady(m) || s.calls[i] == WriteWoken(m))
  }

  /** With room, a Write to an open output is accepted under every policy: its message joins the
      end of the queue, and nothing is dropped. */
  lemma RoomAccepts(s: State, i: nat, m: Message)
    requires AboutToWrite(s, i, m) && !s.sh.closed && |s.sh.queue| < s.sh.capacity
    ensures var r := Step(s, Caller(i));
            && r.calls[i] == WriteReturned(m, true)
            && r.h.enqueued == s.h.enqueued + [m] && r.sh.queue == s.sh.queue + [m]
            && r.sh.dropped == s.sh.dropped
  {
  }

  /** Without room, the policy decides: the new message is dropped, or the oldest one is and
      the new one joins the queue, or the call waits and nothing changes. */
  lemma FullByPolicy(s: State, i: nat, m: Message)
    requires AboutToWrite(s, i, m) && !s.sh.closed && |s.sh.queue| >= s.sh.capacity
    requires s.calls[i].WriteReady?
    ensures var r := Step(s, Caller(i));
            match s.sh.policy
            case DropNewest =>
              && r.calls[i] == WriteReturned(m, true) && r.sh.dropped == s.sh.dropped + 1
              && r.h.enqueued == s.h.enqueued && r.sh.queue == s.sh.queue
            case DropOldest =>
              && r.calls[i] == WriteReturned(m, true) && r.sh.dropped == s.sh.dropped + 1
              && r.h.enqueued == s.h.enqueued + [m] && r.sh.queue == s.sh.queue[1..] + [m]
            case _ =>
              r.calls[i] == WriteParked(m) && r.sh == s.sh && r.h == s.h
  {
  }

  // One that was woken in vain waits again.
  lemma WokenInVain(s: State, i: nat, m: Message)
    requires AboutToWrite(s, i, m) && !s.sh.closed && |s.sh.queue| >= s.sh.capacity && s.calls[i].WriteWoken?
    ensures var r := Step(s, Caller(i)); r.calls[i] == WriteParked(m) && r.sh == s.sh && r.h == s.h
  {
  }

  /** A Write is refused exactly when it finds the output closed, and then changes nothing. */
  lemma RefusedIff(s: State, i: nat, m: Message)
    requires AboutToWrite(s, i, m)
    ensures var r := Step(s, Caller(i));
            && (r.calls[i] == WriteReturned(m, false) <==> s.sh.closed)
            && (s.sh.closed ==> r.sh == s.sh && r.h == s.h)
  {
  }

  // The steps that drop a message.
  predicate DropStep(s: State, a: Actor) {
    && a.Caller? && a.id < |s.calls| && s.calls[a.id].WriteReady?
    && !s.sh.closed && |s.sh.queue| >= s.sh.capacity && Drops(s.sh.policy)
  }

  /** A step drops exactly one message if it is a Write that finds the queue full under a
      dropping policy, and none otherwise. */
  lemma DropsExactly(s: State, a: Actor)
    requires s.sh.capacity > 0 && Enabled(s, a)
    ensures Step(s, a).sh.dropped == s.sh.dropped + if DropStep(s, a) then 1 else 0
  {
  }

  function DropSteps(s: State, schedule: seq<Actor>): nat
    requires s.sh.capacity > 0 && Runs(s, schedule)
    decreases |schedule|
  {
    if schedule == [] then 0
    else (if DropStep(s, schedule[0]) then 1 else 0) + DropSteps(Step(s, schedule[0]), schedule[1..])
  }

  /** Over a run, the counter is the number of such steps. */
  lemma {:induction false} RunDropsExactly(s: State, schedule: seq<Actor>)
    requires s.sh.capacity > 0 && Runs(s, schedule)
    ensures After(s, schedule).sh.dropped == s.sh.dropped + DropSteps(s, schedule)
    decreases |schedule|
  {
    if schedule != [] {
      DropsExactly(s, schedule[0]);
      RunDropsExactly(Step(s, schedule[0]), schedule[1..]);
    }
  }

  // Every step of the run finds room.
  predicate NeverFull(s: State, schedule: seq<Actor>)
    requires s.sh.capacity > 0 && Runs(s, schedule)
    decreases |schedule|
  {
    schedule != [] ==> |s.sh.queue| < s.sh.capacity && NeverFull(Step(s, schedule[0]), schedule[1..])
  }

  // A step that finds room parks no Write, and refuses one only if the output is closed.
  lemma RoomParksNone(s: State, a: Actor, i: nat)
    requires s.sh.capacity > 0 && Enabled(s, a) && i < |s.calls| && |s.sh.queue| < s.sh.capacity
    requires s.calls[i].WriteReady?
    ensures var c := Step(s, a).calls[i];
            c == s.calls[i] || (c.WriteReturned? && c.m == s.calls[i].m && (c.accepted <==> !s.sh.closed))
  {
  }

  // A call that has returned stays so, and a closed output stays closed.
  lemma ReturnedStays(s: State, a: Actor, i: nat)
    requires s.sh.capacity > 0 && Enabled(s, a) && i < |s.calls|
    ensures s.calls[i].WriteReturned? ==> Step(s, a).calls[i] == s.calls[i]
    ensures s.sh.closed ==> Step(s, a).sh.closed
  {
  }

  predicate AcceptedOrClosed(s: State, c: Call, m: Message) {
    c == WriteReady(m) || c == WriteReturned(m, true) || (c == WriteReturned(m, false) && s.sh.closed)
  }

  /** A run whose queue is never full drops nothing, makes no Write wait, and refuses one only if
      the output was closed by then. */
  lemma {:induction false} NeverFullAccepts(s: State, schedule: seq<Actor>, i: nat, m: Message)
    requires s.sh.capacity > 0 && Runs(s, schedule) && NeverFull(s, schedule) && i < |s.calls|
    requires AcceptedOrClosed(s, s.calls[i], m)
    ensures var r := After(s, schedule); r.sh.dropped == s.sh.dropped && AcceptedOrClosed(r, r.calls[i], m)
    decreases |schedule|
  {
    if schedule != [] {
      var a := schedule[0];
      DropsExactly(s, a);
      ReturnedStays(s, a, i);
      if s.calls[i].WriteReady? {
        RoomParksNone(s, a, i);
      }
      if a == Caller(i) && s.calls[i].WriteReady? {
        RefusedIff(s, i, m);
      }
      NeverFullAccepts(Step(s, a), schedule[1..], i, m);
    }
  }
}
