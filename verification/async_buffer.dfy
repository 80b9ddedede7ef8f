/** The mutex-guarded state of the asynchronous output (output/async.go): a bounded
    queue whose messages carry contiguous sequence numbers, and the code that runs
    while the mutex is held.

    A critical section is a function from the state at Lock to the state at Unlock,
    together with what the thread does next and whether it broadcast. `AsyncOutput`
    implements the sections statement by statement on a shifting slot array. */
module AsyncBuffer {
  import opened Wrappers

  type Message = string

  const DEFAULT_BUFFER_SIZE: nat := 1024

  // An AsyncPolicy is an integer in the source: any unlisted value blocks.
  datatype Policy = Block | DropNewest | DropOldest | Unlisted(code: int)

  datatype Shared = Shared(
    capacity: nat,
    policy: Policy,
    closed: bool,
    dropped: nat,
    queue: seq<Message>,
    enqueuedSeq: nat,
    headSeq: nat,
    inFlightSeq: nat)

  // What a thread does when it leaves the critical section.
  datatype Outcome =
    | Park                    // cond.Wait
    | Refused                 // ErrAsyncClosed
    | Enqueued
    | DroppedNew(total: nat)
    | DroppedOld(total: nat)
    | Drained(closed: bool)   // Flush leaves its wait
    | Taken(m: Message, seqNo: nat)
    | Exit
    | Done

  datatype Section = Section(sh: Shared, outcome: Outcome, broadcast: bool)

  /** The options of the factory: a non-positive size keeps the default capacity. */
  function Initial(size: int, policy: Policy): (s: Shared)
    ensures s.capacity > 0
  {
    Shared(if size > 0 then size else DEFAULT_BUFFER_SIZE, policy, false, 0, [], 0, 0, 0)
  }

  predicate Full(s: Shared) {
    |s.queue| >= s.capacity
  }

  function Enqueue(s: Shared, m: Message): Shared {
    var n := s.enqueuedSeq + 1;
    s.(enqueuedSeq := n, headSeq := if s.queue == [] then n else s.headSeq, queue := s.queue + [m])
  }

  function Dequeue(s: Shared): Shared
    requires s.queue != []
  {
    s.(headSeq := s.headSeq + 1, queue := s.queue[1..])
  }

  /** The lowest sequence number that is neither written nor dropped. */
  function MinUnresolved(s: Shared): nat {
    if s.inFlightSeq != 0 then s.inFlightSeq
    else if s.queue != [] then s.headSeq
    else s.enqueuedSeq + 1
  }

  function Blocked(s: Shared, m: Message): Section {
    if Full(s) && !s.closed then Section(s, Park, false)
    else if s.closed then Section(s, Refused, false)
    else Section(Enqueue(s, m), Enqueued, true)
  }

  function WriteSection(s: Shared, m: Message): Section
    requires s.capacity > 0
  {
    if s.closed then Section(s, Refused, false)
    else match s.policy
      case DropNewest =>
        if Full(s) then Section(s.(dropped := s.dropped + 1), DroppedNew(s.dropped + 1), false)
        else Section(Enqueue(s, m), Enqueued, true)
      case DropOldest =>
        if Full(s) then
          Section(Enqueue(Dequeue(s).(dropped := s.dropped + 1), m), DroppedOld(s.dropped + 1), true)
        else Section(Enqueue(s, m), Enqueued, true)
      case _ => Blocked(s, m)
  }

  function FlushSection(s: Shared, target: nat): Section {
    if MinUnresolved(s) <= target then Section(s, Park, false)
    else Section(s, Drained(s.closed), false)
  }

  function WorkerSection(s: Shared): Section {
    if s.queue == [] then Section(s, if s.closed then Exit else Park, false)
    else Section(Dequeue(s).(inFlightSeq := s.headSeq), Taken(s.queue[0], s.headSeq), true)
  }

  function ResolveSection(s: Shared): Section {
    Section(s.(inFlightSeq := 0), Done, true)
  }

  function CloseSection(s: Shared): Section {
    Section(s.(closed := true), Done, true)
  }

  function Somes(slots: seq<Option<Message>>): (r: seq<Message>)
    requires forall i :: 0 <= i < |slots| ==> slots[i].Some?
  {
    seq(|slots|, i requires 0 <= i < |slots| => slots[i].value)
  }

  lemma SomesSnoc(slots: seq<Option<Message>>, m: Message)
    requires forall i :: 0 <= i < |slots| ==> slots[i].Some?
    ensures Somes(slots + [Some(m)]) == Somes(slots) + [m]
  {
  }

  lemma SomesTail(slots: seq<Option<Message>>)
    requires slots != [] && forall i :: 0 <= i < |slots| ==> slots[i].Some?
    ensures Somes(slots[1..]) == Somes(slots)[1..]
  {
  }

  class AsyncOutput {
    const capacity: nat
    const policy: Policy
    var closed: bool
    var dropped: nat
    // The slice `queue`: its backing array, and its length.
    var slots: array<Option<Message>>
    var count: nat
    var enqueuedSeq: nat
    var headSeq: nat
    var inFlightSeq: nat

    /** The queue occupies a prefix of the backing array, and every slot past it is
        cleared, so a message that left the queue can be collected. */
    ghost predicate Valid()
      reads this, slots
    {
      && 0 < capacity
      && count <= slots.Length
      && (forall i :: 0 <= i < count ==> slots[i].Some?)
      && (forall i :: count <= i < slots.Length ==> slots[i].None?)
    }

    ghost function View(): Shared
      reads this, slots
      requires Valid()
    {
      Shared(capacity, policy, closed, dropped, Somes(slots[..count]), enqueuedSeq, headSeq, inFlightSeq)
    }

    constructor (size: int, policy: Policy)
      ensures Valid() && fresh(slots)
      ensures capacity == (if size > 0 then size else 1024) && !closed && count == 0 && dropped == 0
      ensures View() == Initial(size, policy)
    {
      capacity := if size > 0 then size else DEFAULT_BUFFER_SIZE;
      this.policy := policy;
      closed, dropped, count := false, 0, 0;
      enqueuedSeq, headSeq, inFlightSeq := 0, 0, 0;
      slots := new Option<Message>[0];
    }

    // append(queue, m), when the backing array is full and when it is not.
    method Grow()
      requires Valid()
      modifies this`slots
      ensures Valid() && fresh(slots) && count < slots.Length
      ensures slots[..count] == old(slots[..count])
    {
      var bigger := new Option<Message>[2 * count + 1];
      forall i | 0 <= i < bigger.Length {
        bigger[i] := if i < count then slots[i] else None;
      }
      slots := bigger;
    }

    method Append(m: Message)
      requires Valid()
      modifies this`slots, this`count, slots
      ensures Valid() && (slots == old(slots) || fresh(slots))
      ensures View().queue == old(View().queue) + [m]
    {
      if count == slots.Length {
        Grow();
      }
      SomesSnoc(slots[..count], m);
      slots[count] := Some(m);
      count := count + 1;
      assert slots[..count] == old(slots[..count]) + [Some(m)];
    }

    method EnqueueLocked(m: Message)
      requires Valid()
      modifies this, slots
      ensures Valid() && (slots == old(slots) || fresh(slots))
      ensures View() == Enqueue(old(View()), m)
    {
      enqueuedSeq := enqueuedSeq + 1;
      if count == 0 {
        headSeq := enqueuedSeq;
      }
      Append(m);
    }

    // copy(queue, queue[1:]).
    method ShiftLeft()
      requires 0 < count <= slots.Length
      modifies slots
      ensures slots[..count - 1] == old(slots[1..count])
      ensures slots[count - 1..] == old(slots[count - 1..])
    {
      var i := 0;
      while i + 1 < count
        invariant 0 <= i < count
        invariant forall j :: 0 <= j < i ==> slots[j] == old(slots[j + 1])
        invariant forall j :: i <= j < slots.Length ==> slots[j] == old(slots[j])
      {
        slots[i] := slots[i + 1];
        i := i + 1;
      }
    }

    method DequeueLocked() returns (m: Message, seqNo: nat)
      requires Valid() && count > 0
      modifies this, slots
      ensures Valid() && slots == old(slots)
      ensures View() == Dequeue(old(View()))
      ensures m == old(View()).queue[0] && seqNo == old(headSeq)
    {
      SomesTail(slots[..count]);
      m := slots[0].value;
      seqNo := headSeq;
      headSeq := headSeq + 1;
      ShiftLeft();
      assert forall i :: count <= i < slots.Length ==> slots[i] == slots[count - 1..][i - (count - 1)];
      slots[count - 1] := None;
      count := count - 1;
      assert slots[..count] == old(slots[..count])[1..];
    }

    method MinUnresolvedSeqLocked() returns (n: nat)
      requires Valid()
      ensures n == MinUnresolved(View())
    {
      if inFlightSeq != 0 {
        return inFlightSeq;
      }
      if count > 0 {
        return headSeq;
      }
      return enqueuedSeq + 1;
    }

    /** Write from Lock to Unlock, or to its first cond.Wait. */
    method WriteLocked(m: Message) returns (outcome: Outcome, broadcast: bool)
      requires Valid()
      modifies this, slots
      ensures Valid() && (slots == old(slots) || fresh(slots))
      ensures outcome == Refused <==> old(closed)
      ensures broadcast <==> outcome.Enqueued? || outcome.DroppedOld?
      ensures !old(closed) && old(count) < capacity ==>
                outcome == Enqueued && broadcast && dropped == old(dropped) && View().queue == old(View().queue) + [m]
      ensures dropped != old(dropped) ==>
                && old(count) >= capacity && dropped == old(dropped) + 1
                && outcome == match policy
                              case DropNewest => DroppedNew(dropped)
                              case DropOldest => DroppedOld(dropped)
                              case _ => Park
      ensures Section(View(), outcome, broadcast) == WriteSection(old(View()), m)
    {
      if closed {
        return Refused, false;
      }
      match policy {
        case DropNewest =>
          if count >= capacity {
            dropped := dropped + 1;
            return DroppedNew(dropped), false;
          }
        case DropOldest =>
          if count >= capacity {
            var _, _ := DequeueLocked();
            dropped := dropped + 1;
            var total := dropped;
            EnqueueLocked(m);
            return DroppedOld(total), true;
          }
        case _ =>
          outcome, broadcast := WriteWokenLocked(m);
          return;
      }
      EnqueueLocked(m);
      return Enqueued, true;
    }

    /** The blocking policy's wait loop: entered at once, and after every wake-up. */
    method WriteWokenLocked(m: Message) returns (outcome: Outcome, broadcast: bool)
      requires Valid()
      modifies this, slots
      ensures Valid() && (slots == old(slots) || fresh(slots))
      ensures broadcast <==> outcome.Enqueued?
      ensures Section(View(), outcome, broadcast) == Blocked(old(View()), m)
    {
      if count >= capacity && !closed {
        return Park, false;
      }
      if closed {
        return Refused, false;
      }
      EnqueueLocked(m);
      return Enqueued, true;
    }

    /** Flush from Lock: the target is the last number assigned so far. */
    method FlushLocked() returns (target: nat, outcome: Outcome)
      requires Valid()
      ensures target == View().enqueuedSeq
      ensures Section(View(), outcome, false) == FlushSection(View(), target)
    {
      target := enqueuedSeq;
      outcome := FlushWokenLocked(target);
    }

    /** Its wait loop: entered at once, and after every wake-up. */
    method FlushWokenLocked(target: nat) returns (outcome: Outcome)
      requires Valid()
      ensures Section(View(), outcome, false) == FlushSection(View(), target)
    {
      var n := MinUnresolvedSeqLocked();
      if n <= target {
        return Park;
      }
      return Drained(closed);
    }

    /** The worker from Lock to Unlock, or to cond.Wait. */
    method WorkerLocked() returns (outcome: Outcome, broadcast: bool)
      requires Valid()
      modifies this, slots
      ensures Valid() && slots == old(slots)
      ensures broadcast <==> outcome.Taken?
      ensures Section(View(), outcome, broadcast) == WorkerSection(old(View()))
    {
      if count == 0 && !closed {
        return Park, false;
      }
      if count == 0 && closed {
        return Exit, false;
      }
      var m, seqNo := DequeueLocked();
      inFlightSeq := seqNo;
      return Taken(m, seqNo), true;
    }

    method ResolveLocked()
      requires Valid()
      modifies this
      ensures Valid() && slots == old(slots)
      ensures Section(View(), Done, true) == ResolveSection(old(View()))
    {
      inFlightSeq := 0;
    }

    method CloseLocked()
      requires Valid()
      modifies this
      ensures Valid() && slots == old(slots)
      ensures Section(View(), Done, true) == CloseSection(old(View()))
    {
      closed := true;
    }
  }
}
