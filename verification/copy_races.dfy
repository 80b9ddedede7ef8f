/** When copies of one message touch one array slot (message/message.go, Copy and Strip): the
    exact condition under which two outputs of a message write the same slot of their control
    characters without any order between the writes, which Go calls a data race. */
module CopyRaces {
  import opened Wrappers
  import opened LineBreaks
  import opened Pipeline
  import opened ConcurrentOutputs
  import PipelineTheorems

  /** The slot a write's next step assigns in place: that of a strip with room to append. */
  function Hits(h: Heap, t: Thread): Option<(nat, nat)> {
    if t.Writer? && t.phase.Stripping? && EndsInBreak(t.m.processed) && InHeap(h, t.m.controlChars)
       && t.m.controlChars.len < |h.arrays[t.m.controlChars.arr]|
    then Some((t.m.controlChars.arr, t.m.controlChars.len))
    else None
  }

  // Two different writes are about to assign the same slot.
  predicate Collide(s: System, i: nat, j: nat) {
    && i < |s.threads| && j < |s.threads| && i != j
    && Hits(s.heap, s.threads[i]).Some? && Hits(s.heap, s.threads[i]) == Hits(s.heap, s.threads[j])
  }

  predicate TwoEligible(outputs: seq<Output>, p: Message) {
    exists i, j :: 0 <= i < j < |outputs| && Eligible(outputs[i], p) && Eligible(outputs[j], p)
  }

  // The message has a line break to strip, and room behind the ones already recorded.
  predicate SharesRoom(h: Heap, m: Object)
    requires Fits(h, m)
  {
    m.controlChars.len < |h.arrays[m.controlChars.arr]| && EndsInBreak(m.original)
  }

  // ---------------------------------------------------------------- only if

  // No step changes the length of an array that is already there.
  predicate SameLengths(h: Heap, h': Heap) {
    |h.arrays| <= |h'.arrays| && forall a :: 0 <= a < |h.arrays| ==> |h'.arrays[a]| == |h.arrays[a]|
  }

  lemma AdvanceLengths(c: Setting, h: Heap, t: Thread, slack: nat)
    requires t.Writer? && Fits(h, t.m)
    ensures SameLengths(h, Advance(c, h, t, slack).0)
  {
    if !(t.phase.Stripping? && EndsInBreak(t.m.processed)) {
      AdvanceStores(c, h, t, slack);
    }
  }

  lemma {:induction false} RunLengths(c: Setting, s: System, schedule: seq<Turn>)
    ensures SameLengths(s.heap, Run(c, s, schedule).heap)
    decreases |schedule|
  {
    if schedule != [] {
      var turn := schedule[0];
      if turn.i < |s.threads| && s.threads[turn.i].Writer? && Fits(s.heap, s.threads[turn.i].m) {
        AdvanceLengths(c, s.heap, s.threads[turn.i], turn.slack);
      }
      RunLengths(c, Step(c, s, turn), schedule[1..]);
    }
  }

  lemma {:induction false} LaunchLengths(h: Heap, m: Object, outputs: seq<Output>)
    requires Fits(h, m)
    ensures Launch(h, m, outputs).heap.arrays == h.arrays
    decreases |outputs|
  {
    if outputs != [] {
      LaunchLengths(h, m, outputs[..|outputs| - 1]);
    }
  }

  // What a write that strips in place in the source's own array says about the source.
  lemma StripShowsRoom(c: Setting, h: Heap, t: Thread, src: Source)
    requires ThreadInv(c, h, t, src) && SourceKept(h, src) && Hits(h, t).Some?
    requires t.m.controlChars.arr == src.m.controlChars.arr
    ensures SharesRoom(h, src.m) && Eligible(t.o, src.p)
  {
    StripsFromList(c, h, t, src);
    StripsNext(src.p.original, 0);
    assert src.p.original[..|src.p.original|] == src.p.original;
  }

  lemma CollisionShares(c: Setting, s: System, src: Source, i: nat, j: nat)
    requires Inv(c, s, src) && Collide(s, i, j)
    ensures SharesRoom(s.heap, src.m) && Eligible(s.threads[i].o, src.p) && Eligible(s.threads[j].o, src.p)
  {
    assert Apart(s.threads[i], s.threads[j], src);
    assert ThreadInv(c, s.heap, s.threads[i], src) && ThreadInv(c, s.heap, s.threads[j], src);
    StripShowsRoom(c, s.heap, s.threads[i], src);
    StripShowsRoom(c, s.heap, s.threads[j], src);
  }

  // The writes of a message and its copies, under a schedule.
  function Writes(c: Setting, h: Heap, m: Object, outputs: seq<Output>, schedule: seq<Turn>): System
    requires Fits(h, m)
  {
    Run(c, Launch(h, m, outputs), schedule)
  }

  lemma OutputsKept(c: Setting, h: Heap, m: Object, outputs: seq<Output>, schedule: seq<Turn>, i: nat)
    requires Fits(h, m) && i < |outputs|
    ensures Writes(c, h, m, outputs, schedule).threads[i].o == outputs[i]
  {
    LaunchOutputs(h, m, outputs, i);
    RunKeepsOutputs(c, Launch(h, m, outputs), schedule, i);
  }

  lemma RacesOnlyIf(c: Setting, h: Heap, m: Object, outputs: seq<Output>, schedule: seq<Turn>, i: nat, j: nat)
    requires Fits(h, m) && Collide(Writes(c, h, m, outputs, schedule), i, j)
    ensures SharesRoom(h, m) && TwoEligible(outputs, Deref(h, m))
  {
    var src := Source(m, Deref(h, m));
    var s := Launch(h, m, outputs);
    LaunchKeeps(c, h, m, outputs);
    RunKeeps(c, s, schedule, src);
    CollisionShares(c, Writes(c, h, m, outputs, schedule), src, i, j);
    LaunchLengths(h, m, outputs);
    RunLengths(c, s, schedule);
    OutputsKept(c, h, m, outputs, schedule, i);
    OutputsKept(c, h, m, outputs, schedule, j);
  }

  // ---------------------------------------------------------------- if

  // A write that has just started: an alias of the source's control characters.
  predicate AtStart(t: Thread, m: Object) {
    t.Writer? && t.phase.Starting? && t.m.controlChars == m.controlChars
    && t.m.processed == m.original && t.m.processorsNames == m.processorsNames
    && t.m.outputsNames == m.outputsNames
  }

  lemma {:induction false} LaunchStarts(h: Heap, m: Object, outputs: seq<Output>, i: nat)
    requires Fits(h, m) && i < |outputs| && Eligible(outputs[i], Deref(h, m))
    ensures AtStart(Launch(h, m, outputs).threads[i], m)
    decreases |outputs|
  {
    if i < |outputs| - 1 {
      LaunchStarts(h, m, outputs[..|outputs| - 1], i);
    }
  }

  lemma StartSteps(c: Setting, s: System, i: nat, m: Object, src: Source)
    requires Inv(c, s, src) && i < |s.threads| && AtStart(s.threads[i], m)
    ensures var r := Step(c, s, Turn(i, 0));
            && r.heap == s.heap && Inv(c, r, src) && |r.threads| == |s.threads|
            && r.threads[i] == s.threads[i].(names := r.threads[i].names, phase := Stripping)
            && (forall k :: 0 <= k < |s.threads| && k != i ==> r.threads[k] == s.threads[k])
  {
    assert ThreadInv(c, s.heap, s.threads[i], src);
    StepKeeps(c, s, Turn(i, 0), src);
  }

  lemma TwoStartsCollide(c: Setting, s: System, i: nat, j: nat, m: Object, src: Source)
    requires Inv(c, s, src) && i < |s.threads| && j < |s.threads| && i != j
    requires AtStart(s.threads[i], m) && AtStart(s.threads[j], m)
    requires Fits(s.heap, m) && SharesRoom(s.heap, m)
    ensures Collide(Step(c, Step(c, s, Turn(i, 0)), Turn(j, 0)), i, j)
  {
    StartSteps(c, s, i, m, src);
    StartSteps(c, Step(c, s, Turn(i, 0)), j, m, src);
  }

  lemma RunTwo(c: Setting, s: System, a: Turn, b: Turn)
    ensures Run(c, s, [a, b]) == Step(c, Step(c, s, a), b)
  {
    var s1 := Step(c, s, a);
    assert [a, b][1..] == [b] && [b][1..] == [];
    assert Run(c, s1, [b]) == Run(c, Step(c, s1, b), []);
  }

  lemma RacesIf(c: Setting, h: Heap, m: Object, outputs: seq<Output>, i: nat, j: nat)
    requires Fits(h, m) && SharesRoom(h, m) && i < j < |outputs|
    requires Eligible(outputs[i], Deref(h, m)) && Eligible(outputs[j], Deref(h, m))
    ensures Collide(Writes(c, h, m, outputs, [Turn(i, 0), Turn(j, 0)]), i, j)
  {
    var s := Launch(h, m, outputs);
    LaunchKeeps(c, h, m, outputs);
    LaunchLengths(h, m, outputs);
    LaunchStarts(h, m, outputs, i);
    LaunchStarts(h, m, outputs, j);
    TwoStartsCollide(c, s, i, j, m, Source(m, Deref(h, m)));
    RunTwo(c, s, Turn(i, 0), Turn(j, 0));
  }

  // ---------------------------------------------------------------- exactly when

  ghost predicate Races(c: Setting, h: Heap, m: Object, outputs: seq<Output>)
    requires Fits(h, m)
  {
    exists schedule, i, j :: Collide(Writes(c, h, m, outputs, schedule), i, j)
  }

  /** Some schedule has two outputs about to write the same slot exactly when the message
      ends in a line break, its list of control characters has spare capacity, and two of
      the outputs are eligible. */
  lemma RacesIff(c: Setting, h: Heap, m: Object, outputs: seq<Output>)
    requires Fits(h, m)
    ensures Races(c, h, m, outputs) <==> SharesRoom(h, m) && TwoEligible(outputs, Deref(h, m))
  {
    if Races(c, h, m, outputs) {
      var schedule, i, j :| Collide(Writes(c, h, m, outputs, schedule), i, j);
      RacesOnlyIf(c, h, m, outputs, schedule, i, j);
    }
    if SharesRoom(h, m) && TwoEligible(outputs, Deref(h, m)) {
      var i, j :| 0 <= i < j < |outputs| && Eligible(outputs[i], Deref(h, m)) && Eligible(outputs[j], Deref(h, m));
      RacesIf(c, h, m, outputs, i, j);
    }
  }

  ghost predicate DeliveryRaces(env: Env, h: Heap, lg: Logger, m: Object)
    requires Fits(h, m)
  {
    exists schedule, i, j :: Collide(Deliver(Setting(env, lg.name), h, lg, m, schedule), i, j)
  }

  lemma PrepareKeepsRoom(h: Heap, lg: Logger, m: Object)
    requires Fits(h, m)
    ensures var (h', n) := PrepareIn(h, lg, m);
            Fits(h', n) && (SharesRoom(h', n) <==> SharesRoom(h, m))
  {
    PrepareRefines(h, lg, m);
  }

  /** The same for a logger and the message a caller hands to it. */
  lemma DeliveryRacesIff(env: Env, h: Heap, lg: Logger, m: Object)
    requires Fits(h, m)
    ensures DeliveryRaces(env, h, lg, m) <==>
            SharesRoom(h, m) && TwoEligible(lg.outputs, Prepared(lg, Deref(h, m)))
  {
    var c := Setting(env, lg.name);
    var (h', n) := PrepareIn(h, lg, m);
    PrepareRefines(h, lg, m);
    PrepareKeepsRoom(h, lg, m);
    RacesIff(c, h', n, lg.outputs);
    if DeliveryRaces(env, h, lg, m) {
      var schedule, i, j :| Collide(Deliver(c, h, lg, m, schedule), i, j);
      assert Collide(Writes(c, h', n, lg.outputs, schedule), i, j);
    }
    if Races(c, h', n, lg.outputs) {
      var schedule, i, j :| Collide(Writes(c, h', n, lg.outputs, schedule), i, j);
      assert Collide(Deliver(c, h, lg, m, schedule), i, j);
    }
  }

  // ---------------------------------------------------------------- concrete messages

  // message.New for a text that ends in k line feeds, stripped by its caller before it is
  // printed: k appends to an empty slice, whose capacity Go takes from 0 to 1, 2 and 4.
  function Stripped1(): (Heap, Object) {
    var h := Heap([[], []], [{}], [map[]]);
    var m := Object(4, "x\n", "x\n", NoFlag, 0, Some(0), Slice(0, 0), Slice(1, 0), Slice(1, 0));
    var (h1, s1) := AppendTo(h, m.controlChars, "\n", 0);
    (h1, m.(processed := "x", controlChars := s1))
  }

  function Stripped3(): (Heap, Object) {
    var h := Heap([[], []], [{}], [map[]]);
    var m := Object(4, "x\n\n\n", "x\n\n\n", NoFlag, 0, Some(0), Slice(0, 0), Slice(1, 0), Slice(1, 0));
    var (h1, s1) := AppendTo(h, m.controlChars, "\n", 0);
    var (h2, s2) := AppendTo(h1, s1, "\n", 0);
    var (h3, s3) := AppendTo(h2, s2, "\n", 1);
    (h3, m.(processed := "x", controlChars := s3))
  }

  // Two enabled outputs.
  function TwoOutputs(): Logger {
    var a := Output("a", true, 4, [], NoFormatter, Accepts);
    Logger("l", false, [a, a.(name := "b")], {}, None)
  }

  lemma BothEligible(m: Message)
    requires m.outputsNames == []
    ensures TwoEligible(TwoOutputs().outputs, Prepared(TwoOutputs(), m))
  {
    var os := TwoOutputs().outputs;
    PipelineTheorems.OwnNameIsListed(os, 0);
    PipelineTheorems.OwnNameIsListed(os, 1);
    assert Eligible(os[0], Prepared(TwoOutputs(), m)) && Eligible(os[1], Prepared(TwoOutputs(), m));
  }

  /** A message stripped of three line breaks races on two outputs; stripped of one, it does
      not, because its list has no spare capacity. */
  lemma StrippedMessageRaces(env: Env)
    ensures var (h, m) := Stripped3(); Fits(h, m) && DeliveryRaces(env, h, TwoOutputs(), m)
    ensures var (h, m) := Stripped1(); Fits(h, m) && !DeliveryRaces(env, h, TwoOutputs(), m)
  {
    var (h, m) := Stripped3();
    assert h.arrays[m.controlChars.arr] == ["\n", "\n", "\n", ""] && m.controlChars.len == 3;
    BothEligible(Deref(h, m));
    DeliveryRacesIff(env, h, TwoOutputs(), m);
    var (g, n) := Stripped1();
    assert g.arrays[n.controlChars.arr] == ["\n"] && n.controlChars.len == 1;
    DeliveryRacesIff(env, g, TwoOutputs(), n);
  }

  /** A fresh message never races: its list has no array to share. */
  lemma FreshMessageNeverRaces(env: Env, h: Heap, lg: Logger, m: Object)
    requires Fits(h, m) && h.arrays[m.controlChars.arr] == []
    ensures !DeliveryRaces(env, h, lg, m)
  {
    DeliveryRacesIff(env, h, lg, m);
  }

  /** Where two writes collide they assign the same string, so the texts come out right. */
  lemma CollidingWritesAgree(c: Setting, s: System, src: Source, i: nat, j: nat)
    requires Inv(c, s, src) && Collide(s, i, j)
    ensures var t, u := s.threads[i].m.processed, s.threads[j].m.processed; t[|t| - 1] == u[|u| - 1]
  {
    assert ThreadInv(c, s.heap, s.threads[i], src) && ThreadInv(c, s.heap, s.threads[j], src);
    StripsFromList(c, s.heap, s.threads[i], src);
    StripsFromList(c, s.heap, s.threads[j], src);
  }
}
