/** Processors with state of their own (processor/dedup.go, sample.go, ratelimit.go) on outputs
    that are written concurrently: when sharing an instance lets outputs disturb each other.

    An instance's state is a cell, and its mutex makes a run one step. What the instances do
    is arbitrary; which output uses which instances is the wiring. */
module ProcessorState {
  import opened Pipeline

  // What an instance makes of its state and a message.
  type Behaviour = (string, Body) -> (string, Body)

  // The instances each output runs, in order: the enabled and named ones of its processors.
  type Wiring = seq<seq<nat>>

  datatype Thread = Thread(chain: seq<nat>, next: nat, body: Body)

  datatype System = System(cells: seq<string>, threads: seq<Thread>)

  predicate Wired(wires: Wiring, n: nat) {
    forall i, k :: 0 <= i < |wires| && 0 <= k < |wires[i]| ==> wires[i][k] < n
  }

  predicate InRange(chain: seq<nat>, n: nat) {
    forall k :: 0 <= k < |chain| ==> chain[k] < n
  }

  /** One output's processors, run without interruption. */
  function Alone(run: nat -> Behaviour, cells: seq<string>, chain: seq<nat>, b: Body): (r: (seq<string>, Body))
    requires InRange(chain, |cells|)
    ensures |r.0| == |cells|
  {
    if chain == [] then (cells, b)
    else
      var k := |chain| - 1;
      var (before, body) := Alone(run, cells, chain[..k], b);
      var (state, after) := run(chain[k])(before[chain[k]], body);
      (before[chain[k] := state], after)
  }

  function Step(run: nat -> Behaviour, s: System, i: nat): (r: System)
    ensures |r.threads| == |s.threads| && |r.cells| == |s.cells|
  {
    if i < |s.threads| && s.threads[i].next < |s.threads[i].chain|
       && s.threads[i].chain[s.threads[i].next] < |s.cells| then
      var t := s.threads[i];
      var c := t.chain[t.next];
      var (state, body) := run(c)(s.cells[c], t.body);
      System(s.cells[c := state], s.threads[i := t.(next := t.next + 1, body := body)])
    else s
  }

  function Run(run: nat -> Behaviour, s: System, schedule: seq<nat>): (r: System)
    ensures |r.threads| == |s.threads| && |r.cells| == |s.cells|
    decreases |schedule|
  {
    if schedule == [] then s else Run(run, Step(run, s, schedule[0]), schedule[1..])
  }

  function Start(wires: Wiring, cells: seq<string>, b: Body): System {
    System(cells, seq(|wires|, i requires 0 <= i < |wires| => Thread(wires[i], 0, b)))
  }

  predicate Finished(t: Thread) {
    t.next >= |t.chain|
  }

  predicate Disjoint(a: seq<nat>, b: seq<nat>) {
    forall k, l :: 0 <= k < |a| && 0 <= l < |b| ==> a[k] != b[l]
  }

  /** No instance serves two outputs. */
  predicate Unshared(wires: Wiring) {
    forall i, j :: 0 <= i < |wires| && 0 <= j < |wires| && i != j ==> Disjoint(wires[i], wires[j])
  }

  /** Whatever the instances do and however the outputs interleave, an output makes of its
      message what it would make of it alone. */
  ghost predicate Isolated(wires: Wiring, n: nat)
    requires Wired(wires, n)
  {
    forall run: nat -> Behaviour, cells: seq<string>, b: Body, schedule: seq<nat>, i: nat ::
      |cells| == n && i < |wires| && Finished(Run(run, Start(wires, cells, b), schedule).threads[i]) ==>
        Run(run, Start(wires, cells, b), schedule).threads[i].body == Alone(run, cells, wires[i], b).1
  }

  // ---------------------------------------------------------------- unshared is isolated

  // A thread is where it would be alone, and so are the cells it uses.
  predicate OnTrack(run: nat -> Behaviour, init: seq<string>, b: Body, s: System, wire: seq<nat>, t: Thread)
    requires InRange(wire, |init|)
  {
    && |s.cells| == |init| && t.chain == wire && t.next <= |wire|
    && InRange(wire[..t.next], |init|)
    && (var (cells, body) := Alone(run, init, wire[..t.next], b);
        t.body == body && forall k :: 0 <= k < |wire| ==> s.cells[wire[k]] == cells[wire[k]])
  }

  lemma OwnStep(run: nat -> Behaviour, init: seq<string>, b: Body, s: System, wire: seq<nat>, i: nat)
    requires InRange(wire, |init|) && i < |s.threads| && OnTrack(run, init, b, s, wire, s.threads[i])
    ensures var r := Step(run, s, i); OnTrack(run, init, b, r, wire, r.threads[i])
  {
    var t := s.threads[i];
    if t.next < |wire| {
      assert wire[..t.next + 1][..t.next] == wire[..t.next];
    }
  }

  lemma OtherStep(run: nat -> Behaviour, init: seq<string>, b: Body, s: System, wire: seq<nat>, i: nat, j: nat)
    requires InRange(wire, |init|) && i < |s.threads| && j != i && OnTrack(run, init, b, s, wire, s.threads[i])
    requires j < |s.threads| ==> Disjoint(wire, s.threads[j].chain)
    ensures var r := Step(run, s, j); OnTrack(run, init, b, r, wire, r.threads[i])
  {
  }

  predicate ChainsKept(wires: Wiring, s: System) {
    |s.threads| == |wires| && forall i :: 0 <= i < |wires| ==> s.threads[i].chain == wires[i]
  }

  lemma {:induction false} RunOnTrack(run: nat -> Behaviour, init: seq<string>, b: Body, wires: Wiring, s: System,
                                      schedule: seq<nat>, i: nat)
    requires Wired(wires, |init|) && Unshared(wires) && ChainsKept(wires, s) && i < |wires|
    requires InRange(wires[i], |init|) && OnTrack(run, init, b, s, wires[i], s.threads[i])
    ensures OnTrack(run, init, b, Run(run, s, schedule), wires[i], Run(run, s, schedule).threads[i])
    decreases |schedule|
  {
    if schedule != [] {
      if schedule[0] == i {
        OwnStep(run, init, b, s, wires[i], i);
      } else {
        OtherStep(run, init, b, s, wires[i], i, schedule[0]);
      }
      RunOnTrack(run, init, b, wires, Step(run, s, schedule[0]), schedule[1..], i);
    }
  }

  lemma UnsharedIsolated(wires: Wiring, n: nat)
    requires Wired(wires, n) && Unshared(wires)
    ensures Isolated(wires, n)
  {
    forall run: nat -> Behaviour, cells: seq<string>, b: Body, schedule: seq<nat>, i: nat |
      |cells| == n && i < |wires| && Finished(Run(run, Start(wires, cells, b), schedule).threads[i])
      ensures Run(run, Start(wires, cells, b), schedule).threads[i].body == Alone(run, cells, wires[i], b).1
    {
      assert wires[i][..0] == [];
      RunOnTrack(run, cells, b, wires, Start(wires, cells, b), schedule, i);
      assert wires[i][..|wires[i]|] == wires[i];
    }
  }

  // ---------------------------------------------------------------- shared is not

  // Instances that count their runs, and append the count to the text, one mark for each.
  function Counting(c: nat): Behaviour {
    (state: string, b: Body) => (state + "x", b.(processed := b.processed + state))
  }

  predicate Longer(a: seq<string>, b: seq<string>) {
    |a| == |b| && forall c :: 0 <= c < |a| ==> |a[c]| <= |b[c]|
  }

  // From cells that have counted more, the text is longer, and strictly so if the chain uses
  // one of them.
  lemma {:induction false} LongerText(a: seq<string>, b: seq<string>, chain: seq<nat>, x: Body, y: Body)
    requires Longer(a, b) && InRange(chain, |a|) && |x.processed| <= |y.processed|
    ensures var (ca, ra), (cb, rb) := Alone(Counting, a, chain, x), Alone(Counting, b, chain, y);
            && Longer(ca, cb) && |ra.processed| <= |rb.processed|
            && (forall c :: 0 <= c < |a| && |a[c]| < |b[c]| ==> |ca[c]| < |cb[c]|)
    decreases |chain|
  {
    if chain != [] {
      LongerText(a, b, chain[..|chain| - 1], x, y);
    }
  }

  lemma {:induction false} StrictlyLonger(a: seq<string>, b: seq<string>, chain: seq<nat>, x: Body, k: nat)
    requires Longer(a, b) && InRange(chain, |a|) && k < |chain| && |a[chain[k]]| < |b[chain[k]]|
    ensures |Alone(Counting, a, chain, x).1.processed| < |Alone(Counting, b, chain, x).1.processed|
    decreases |chain|
  {
    var n := |chain| - 1;
    LongerText(a, b, chain[..n], x, x);
    if k < n {
      StrictlyLonger(a, b, chain[..n], x, k);
    }
  }

  // Running one thread to its end.
  function Times(i: nat, k: nat): (r: seq<nat>)
    ensures |r| == k
  {
    if k == 0 then [] else [i] + Times(i, k - 1)
  }

  lemma {:induction false} RunConcat(run: nat -> Behaviour, s: System, a: seq<nat>, b: seq<nat>)
    ensures Run(run, s, a + b) == Run(run, Run(run, s, a), b)
    decreases |a|
  {
    if a == [] {
      assert a + b == b;
    } else {
      assert (a + b)[1..] == a[1..] + b;
      RunConcat(run, Step(run, s, a[0]), a[1..], b);
    }
  }

  lemma {:induction false} RunAlone(run: nat -> Behaviour, s: System, i: nat, k: nat)
    requires i < |s.threads| && s.threads[i].next == 0 && k <= |s.threads[i].chain|
    requires InRange(s.threads[i].chain, |s.cells|)
    ensures var r, t := Run(run, s, Times(i, k)), s.threads[i];
            var (cells, body) := Alone(run, s.cells, t.chain[..k], t.body);
            r == System(cells, s.threads[i := t.(next := k, body := body)])
  {
    var t := s.threads[i];
    if k == 0 {
      assert s.threads[i := t] == s.threads;
    } else {
      RunAlone(run, s, i, k - 1);
      TimesSnoc(i, k - 1);
      RunConcat(run, s, Times(i, k - 1), [i]);
      assert t.chain[..k][..k - 1] == t.chain[..k - 1];
      var q := Run(run, s, Times(i, k - 1));
      assert [i][1..] == [];
      assert Run(run, q, [i]) == Step(run, q, i);
    }
  }

  lemma {:induction false} TimesSnoc(i: nat, k: nat)
    ensures Times(i, k + 1) == Times(i, k) + [i]
  {
    if k > 0 {
      TimesSnoc(i, k - 1);
    }
  }

  lemma {:induction false} CountsUp(cells: seq<string>, chain: seq<nat>, b: Body)
    requires InRange(chain, |cells|)
    ensures Longer(cells, Alone(Counting, cells, chain, b).0)
    ensures forall k :: 0 <= k < |chain| ==> |cells[chain[k]]| < |Alone(Counting, cells, chain, b).0[chain[k]]|
    decreases |chain|
  {
    if chain != [] {
      CountsUp(cells, chain[..|chain| - 1], b);
    }
  }

  // j first, then i: i sees the marks that j left in the cell they share.
  lemma SharedDisturbs(wires: Wiring, cells: seq<string>, b: Body, i: nat, j: nat, k: nat, l: nat)
    requires Wired(wires, |cells|) && i < |wires| && j < |wires| && i != j
    requires k < |wires[i]| && l < |wires[j]| && wires[i][k] == wires[j][l]
    ensures var schedule := Times(j, |wires[j]|) + Times(i, |wires[i]|);
            var r := Run(Counting, Start(wires, cells, b), schedule);
            Finished(r.threads[i]) && r.threads[i].body != Alone(Counting, cells, wires[i], b).1
  {
    var s := Start(wires, cells, b);
    RunAlone(Counting, s, j, |wires[j]|);
    var q := Run(Counting, s, Times(j, |wires[j]|));
    assert wires[j][..|wires[j]|] == wires[j] && wires[i][..|wires[i]|] == wires[i];
    CountsUp(cells, wires[j], b);
    RunAlone(Counting, q, i, |wires[i]|);
    RunConcat(Counting, s, Times(j, |wires[j]|), Times(i, |wires[i]|));
    StrictlyLonger(cells, q.cells, wires[i], b, k);
  }

  lemma OneRunDisturbed(wires: Wiring, n: nat, run: nat -> Behaviour, cells: seq<string>, b: Body, schedule: seq<nat>,
                        i: nat)
    requires Wired(wires, n) && |cells| == n && i < |wires|
    requires var t := Run(run, Start(wires, cells, b), schedule).threads[i];
             Finished(t) && t.body != Alone(run, cells, wires[i], b).1
    ensures !Isolated(wires, n)
  {
  }

  /** Outputs with stateful processors are isolated from each other exactly when no instance
      serves two of them. */
  lemma IsolatedIff(wires: Wiring, n: nat)
    requires Wired(wires, n)
    ensures Isolated(wires, n) <==> Unshared(wires)
  {
    if Unshared(wires) {
      UnsharedIsolated(wires, n);
    } else {
      var i, j :| 0 <= i < |wires| && 0 <= j < |wires| && i != j && !Disjoint(wires[i], wires[j]);
      var k, l :| 0 <= k < |wires[i]| && 0 <= l < |wires[j]| && wires[i][k] == wires[j][l];
      var cells := seq(n, _ => "");
      var b := NewMessage(0, "").body;
      SharedDisturbs(wires, cells, b, i, j, k, l);
      OneRunDisturbed(wires, n, Counting, cells, b, Times(j, |wires[j]|) + Times(i, |wires[i]|), i);
    }
  }
}
