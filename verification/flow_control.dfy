/** The flow-control processors (processor/dedup.go, sample.go, ratelimit.go) at work on an
    output: what their verdicts do to the messages of a logger. */
module FlowControl {
  import opened Wrappers
  import opened LineBreaks
  import opened KeyTrace
  import opened Pipeline
  import opened PipelineFlags
  import Dedup
  import Sampler
  import RateLimiter

  /** A processor that keeps state: what it makes of a message's key and the clock, and whether
      it mutes the message. */
  datatype Controller<!S> = Controller(init: S, step: (S, Event) -> (S, bool))

  function DedupControl(window: int): Controller<Dedup.Entries> {
    Controller(map[], (s, e) => var v := Dedup.Run(s, AtMost(Dedup.MAX_KEYS), window, e); (v.entries, v.muted))
  }

  function SampleControl(cfg: Sampler.Config): Controller<Sampler.Entries> {
    Controller(map[], (s, e) => var v := Sampler.Run(s, AtMost(Sampler.MAX_KEYS), cfg, e); (v.entries, v.muted))
  }

  function RateControl(max: nat, window: int): Controller<RateLimiter.State> {
    Controller(RateLimiter.FRESH, (s, e: Event) => var v := RateLimiter.Run(s, max, window, e.now); (v.state, v.muted))
  }

  // The processor at one message: it sets Mute, or leaves the message alone.
  function Muter(name: string, muted: bool): Processor {
    Processor(name, true, (level, b: Body) => if muted then b.(flag := Mute) else b)
  }

  // A message and the clock when it is processed.
  datatype Arrival = Arrival(m: Message, now: int)

  // The output's one processor, and how it keys messages.
  datatype Setup = Setup(lg: Logger, env: Env, output: nat, name: string, keyOf: (int, Body) -> Key)

  predicate Valid(c: Setup) {
    c.output < |c.lg.outputs|
  }

  // The logger with the processor as it acts on one message.
  function Armed(c: Setup, muted: bool): (r: Logger)
    requires Valid(c)
    ensures |r.outputs| == |c.lg.outputs|
  {
    c.lg.(outputs := c.lg.outputs[c.output := c.lg.outputs[c.output].(processors := [Muter(c.name, muted)])])
  }

  /** What an arrival is to the output and its processor: whether the output would write it with
      no processor in the way, whether the processor gets to see it, and as what. */
  datatype Sight = Sight(admitted: bool, seen: bool, event: Event)

  function SightOf(c: Setup, a: Arrival): Sight
    requires Valid(c)
  {
    var o, b := c.lg.outputs[c.output], Dispatched(c.lg, a.m).body;
    var reaches := Reaches(c.lg, c.env, a.m, o);
    Sight(reaches && Wanted(c.lg, c.env, a.m, o, a.m.body.flag),
          reaches && !Untouchable(a.m.body.flag) && Listed(a.m.processorsNames, c.name),
          Event(c.keyOf(a.m.level, b.(processed := Stripped(b.processed))), a.now))
  }

  function Sights(c: Setup, arrivals: seq<Arrival>): (r: seq<Sight>)
    requires Valid(c)
    ensures |r| == |arrivals| && forall i :: 0 <= i < |arrivals| ==> r[i] == SightOf(c, arrivals[i])
  {
    seq(|arrivals|, i requires 0 <= i < |arrivals| => SightOf(c, arrivals[i]))
  }

  // What the processor saw.
  function Trace(ss: seq<Sight>): seq<Event> {
    if ss == [] then []
    else
      var s := ss[|ss| - 1];
      Trace(ss[..|ss| - 1]) + if s.seen then [s.event] else []
  }

  // The processor's state after a trace.
  function Feed<S>(k: Controller<S>, trace: seq<Event>): S {
    if trace == [] then k.init
    else
      var n := |trace| - 1;
      k.step(Feed(k, trace[..n]), trace[n]).0
  }

  predicate Mutes<S>(k: Controller<S>, trace: seq<Event>)
    requires trace != []
  {
    var n := |trace| - 1;
    k.step(Feed(k, trace[..n]), trace[n]).1
  }

  /** The logger at work: each arrival is dispatched with the processor in the state the
      earlier ones left it in, which only those it sees change. The second result says
      which arrivals the output wrote. */
  function Work<S>(c: Setup, k: Controller<S>, arrivals: seq<Arrival>): (r: (S, seq<bool>))
    requires Valid(c)
    ensures |r.1| == |arrivals|
  {
    if arrivals == [] then (k.init, [])
    else
      var a := arrivals[|arrivals| - 1];
      var (state, written) := Work(c, k, arrivals[..|arrivals| - 1]);
      var s := SightOf(c, a);
      var (state', muted) := k.step(state, s.event);
      var d := Process(Armed(c, s.seen && muted), c.env, a.m);
      (if s.seen then state' else state, written + [d.writes[c.output].Some?])
  }

  // ---------------------------------------------------------------- a verdict is what happens

  // The flag is Mute if the processor mutes the message, and untouched otherwise.
  lemma MuterSets(o: Output, m: Message, name: string, muted: bool)
    requires o.processors == [Muter(name, muted)]
    ensures Processed(o, m).flag
         == if muted && !Untouchable(m.body.flag) && Listed(m.processorsNames, name) then Mute else m.body.flag
  {
    ProcessedIs(o, m);
    if !Untouchable(m.body.flag) {
      var bs: seq<Body> :| Course(o, m, bs) && Processed(o, m) == bs[|bs| - 1];
      assert bs[1] == if Listed(m.processorsNames, name) then o.processors[0].run(m.level, bs[0]) else bs[0];
    }
  }

  // A message is written if the output admits it, unless the processor sees and mutes it.
  lemma VerdictDecides(c: Setup, a: Arrival, muted: bool)
    requires Valid(c)
    ensures var s := SightOf(c, a);
            Process(Armed(c, s.seen && muted), c.env, a.m).writes[c.output].Some? <==> s.admitted && !(s.seen && muted)
  {
    var lg := Armed(c, SightOf(c, a).seen && muted);
    WrittenIff(lg, c.env, a.m, c.output);
    MuterSets(lg.outputs[c.output], Dispatched(lg, a.m), c.name, SightOf(c, a).seen && muted);
  }

  // The same on what is to be seen of the arrivals.
  function Outcome<S>(k: Controller<S>, ss: seq<Sight>): (r: (S, seq<bool>))
    ensures |r.1| == |ss|
  {
    if ss == [] then (k.init, [])
    else
      var s := ss[|ss| - 1];
      var (state, written) := Outcome(k, ss[..|ss| - 1]);
      var (state', muted) := k.step(state, s.event);
      (if s.seen then state' else state, written + [s.admitted && !(s.seen && muted)])
  }

  lemma {:induction false} WorkIsOutcome<S>(c: Setup, k: Controller<S>, arrivals: seq<Arrival>)
    requires Valid(c)
    ensures Work(c, k, arrivals) == Outcome(k, Sights(c, arrivals))
  {
    if arrivals != [] {
      var n := |arrivals| - 1;
      WorkIsOutcome(c, k, arrivals[..n]);
      assert Sights(c, arrivals)[..n] == Sights(c, arrivals[..n]);
      VerdictDecides(c, arrivals[n], k.step(Work(c, k, arrivals[..n]).0, SightOf(c, arrivals[n]).event).1);
    }
  }

  lemma {:induction false} StateIsFeed<S>(k: Controller<S>, ss: seq<Sight>)
    ensures Outcome(k, ss).0 == Feed(k, Trace(ss))
  {
    if ss != [] {
      var n := |ss| - 1;
      StateIsFeed(k, ss[..n]);
      var before := Trace(ss[..n]);
      assert (before + [ss[n].event])[..|before|] == before;
      assert before + [] == before;
    }
  }

  lemma {:induction false} OutcomeIff<S>(k: Controller<S>, ss: seq<Sight>, i: nat)
    requires i < |ss|
    ensures ss[i].seen ==> Trace(ss[..i + 1]) == Trace(ss[..i]) + [ss[i].event]
    ensures Outcome(k, ss).1[i] <==> ss[i].admitted && (ss[i].seen ==> !Mutes(k, Trace(ss[..i]) + [ss[i].event]))
    decreases |ss|
  {
    var n := |ss| - 1;
    assert ss[..i + 1][..i] == ss[..i];
    if i < n {
      OutcomeIff(k, ss[..n], i);
      assert ss[..n][..i + 1] == ss[..i + 1] && ss[..n][..i] == ss[..i];
    } else {
      var before := Trace(ss[..n]);
      StateIsFeed(k, ss[..n]);
      assert (before + [ss[n].event])[..|before|] == before;
    }
  }

  /** Whatever the processor's algorithm: an output with no other writes a message exactly
      when it admits it, and the processor, given what it saw so far, does not mute it. What
      it does not see (other outputs' and other processors' messages, and those flagged to
      skip processing) leaves no mark on it. */
  lemma ControlledOutput<S>(c: Setup, k: Controller<S>, arrivals: seq<Arrival>, i: nat)
    requires Valid(c) && i < |arrivals|
    ensures var ss := Sights(c, arrivals);
            Work(c, k, arrivals).1[i] <==> ss[i].admitted && (ss[i].seen ==> !Mutes(k, Trace(ss[..i]) + [ss[i].event]))
  {
    WorkIsOutcome(c, k, arrivals);
    OutcomeIff(k, Sights(c, arrivals), i);
  }

  // ---------------------------------------------------------------- the three processors

  lemma {:induction false} DedupFeeds(window: int, trace: seq<Event>)
    ensures Feed(DedupControl(window), trace) == Dedup.After(AtMost(Dedup.MAX_KEYS), window, trace)
  {
    if trace != [] {
      DedupFeeds(window, trace[..|trace| - 1]);
    }
  }

  lemma {:induction false} SampleFeeds(cfg: Sampler.Config, trace: seq<Event>)
    ensures Feed(SampleControl(cfg), trace) == Sampler.After(AtMost(Sampler.MAX_KEYS), cfg, trace)
  {
    if trace != [] {
      SampleFeeds(cfg, trace[..|trace| - 1]);
    }
  }

  function Times(trace: seq<Event>): (r: seq<int>)
    ensures |r| == |trace| && forall i :: 0 <= i < |trace| ==> r[i] == trace[i].now
  {
    seq(|trace|, i requires 0 <= i < |trace| => trace[i].now)
  }

  lemma {:induction false} RateFeeds(max: nat, window: int, trace: seq<Event>)
    ensures Feed(RateControl(max, window), trace) == RateLimiter.After(max, window, Times(trace))
  {
    if trace != [] {
      var n := |trace| - 1;
      RateFeeds(max, window, trace[..n]);
      assert Times(trace)[..n] == Times(trace[..n]);
    }
  }

  lemma DedupMutesIff(window: int, trace: seq<Event>, e: Event)
    ensures Mutes(DedupControl(window), trace + [e]) <==>
              !Dedup.PassesAt(AtMost(Dedup.MAX_KEYS), window, trace + [e], |trace|)
  {
    DedupFeeds(window, trace);
    Dedup.OneMore(AtMost(Dedup.MAX_KEYS), window, trace, e);
    assert (trace + [e])[..|trace|] == trace;
  }

  /** With Dedup an output writes, of the messages Dedup sees, those it admits that pass the
      deduplication of their key. */
  lemma DedupOutput(c: Setup, window: int, arrivals: seq<Arrival>, i: nat)
    requires Valid(c) && i < |arrivals| && Sights(c, arrivals)[i].seen
    ensures var ss := Sights(c, arrivals);
            var t := Trace(ss[..i]);
            Work(c, DedupControl(window), arrivals).1[i] <==>
              ss[i].admitted && Dedup.PassesAt(AtMost(Dedup.MAX_KEYS), window, t + [ss[i].event], |t|)
  {
    var ss := Sights(c, arrivals);
    ControlledOutput(c, DedupControl(window), arrivals, i);
    DedupMutesIff(window, Trace(ss[..i]), ss[i].event);
  }

  lemma SampleMutesIff(cfg: Sampler.Config, trace: seq<Event>, e: Event)
    ensures var n := Sampler.Position(AtMost(Sampler.MAX_KEYS), cfg, trace + [e], e.key).0;
            Mutes(SampleControl(cfg), trace + [e]) <==> !Sampler.Admits(cfg, n)
  {
    assert (trace + [e])[..|trace|] == trace;
    SampleFeeds(cfg, trace);
    Sampler.MutesIff(AtMost(Sampler.MAX_KEYS), cfg, trace, e);
  }

  /** With Sample it writes those whose number n in the window of their key is at most First,
      or a multiple of Thereafter beyond it: see AdmitsIff. */
  lemma SampleOutput(c: Setup, cfg: Sampler.Config, arrivals: seq<Arrival>, i: nat)
    requires Valid(c) && i < |arrivals| && Sights(c, arrivals)[i].seen
    ensures var ss := Sights(c, arrivals);
            var e := ss[i].event;
            var n := Sampler.Position(AtMost(Sampler.MAX_KEYS), cfg, Trace(ss[..i]) + [e], e.key).0;
            Work(c, SampleControl(cfg), arrivals).1[i] <==> ss[i].admitted && Sampler.Admits(cfg, n)
  {
    var ss := Sights(c, arrivals);
    ControlledOutput(c, SampleControl(cfg), arrivals, i);
    SampleMutesIff(cfg, Trace(ss[..i]), ss[i].event);
  }

  lemma RateMutesIff(max: nat, window: int, trace: seq<Event>, e: Event)
    ensures Mutes(RateControl(max, window), trace + [e]) <==>
              RateLimiter.Position(window, Times(trace + [e])).0 > max
    ensures forall x :: RateLimiter.PassedIn(max, window, Times(trace + [e]), x)
                     == RateLimiter.PassedIn(max, window, Times(trace), x)
                        + if x <= e.now < x + window && !Mutes(RateControl(max, window), trace + [e]) then 1 else 0
  {
    RateFeeds(max, window, trace);
    assert (trace + [e])[..|trace|] == trace;
    assert Times(trace + [e]) == Times(trace) + [e.now];
    RateLimiter.PassesIff(max, window, Times(trace + [e]));
    forall x
      ensures RateLimiter.PassedIn(max, window, Times(trace + [e]), x)
           == RateLimiter.PassedIn(max, window, Times(trace), x)
              + if x <= e.now < x + window && !Mutes(RateControl(max, window), trace + [e]) then 1 else 0
    {
      RateLimiter.OneMore(max, window, Times(trace), e.now, x);
    }
  }

  /** With RateLimit it writes those whose number in the limiter's window is within the
      limit. */
  lemma RateOutput(c: Setup, max: nat, window: int, arrivals: seq<Arrival>, i: nat)
    requires Valid(c) && i < |arrivals| && Sights(c, arrivals)[i].seen
    ensures var ss := Sights(c, arrivals);
            Work(c, RateControl(max, window), arrivals).1[i] <==>
              ss[i].admitted && RateLimiter.Position(window, Times(Trace(ss[..i]) + [ss[i].event])).0 <= max
  {
    var ss := Sights(c, arrivals);
    ControlledOutput(c, RateControl(max, window), arrivals, i);
    RateMutesIff(max, window, Trace(ss[..i]), ss[i].event);
  }

  // ---------------------------------------------------------------- the limit, at the output

  // The messages that pass through the processor and are written at a time t with
  // x <= t < x + window.
  function WrittenIn(ss: seq<Sight>, written: seq<bool>, window: int, x: int): nat
    requires |written| == |ss|
  {
    if ss == [] then 0
    else
      var n := |ss| - 1;
      WrittenIn(ss[..n], written[..n], window, x) +
      if ss[n].seen && x <= ss[n].event.now < x + window && written[n] then 1 else 0
  }

  predicate InOrder(ss: seq<Sight>) {
    forall i, j :: 0 <= i <= j < |ss| ==> ss[i].event.now <= ss[j].event.now
  }

  lemma {:induction false} TraceInOrder(ss: seq<Sight>)
    requires InOrder(ss)
    ensures RateLimiter.Monotone(Times(Trace(ss)))
    ensures Trace(ss) != [] ==> Trace(ss)[|Trace(ss)| - 1].now <= ss[|ss| - 1].event.now
  {
    if ss != [] {
      TraceInOrder(ss[..|ss| - 1]);
    }
  }

  lemma {:induction false} WrittenHavePassed(max: nat, window: int, ss: seq<Sight>, x: int)
    ensures WrittenIn(ss, Outcome(RateControl(max, window), ss).1, window, x)
         <= RateLimiter.PassedIn(max, window, Times(Trace(ss)), x)
  {
    if ss != [] {
      var n := |ss| - 1;
      var k := RateControl(max, window);
      WrittenHavePassed(max, window, ss[..n], x);
      assert Outcome(k, ss).1[..n] == Outcome(k, ss[..n]).1;
      OutcomeIff(k, ss, n);
      if ss[n].seen {
        RateMutesIff(max, window, Trace(ss[..n]), ss[n].event);
      } else {
        assert Trace(ss) == Trace(ss[..n]);
      }
    }
  }

  /** With RateLimit no interval of the window's length sees more written than the limiter's
      bound, whatever the messages, their levels and their flags, forced ones included; only
      those that skip processing, or the limiter, are not counted. */
  lemma RateLimitedOutput(c: Setup, max: nat, window: int, arrivals: seq<Arrival>, x: int)
    requires Valid(c) && window > 0 && InOrder(Sights(c, arrivals))
    ensures WrittenIn(Sights(c, arrivals), Work(c, RateControl(max, window), arrivals).1, window, x)
         <= RateLimiter.SlidingMax(max, window)
  {
    var ss := Sights(c, arrivals);
    WorkIsOutcome(c, RateControl(max, window), arrivals);
    TraceInOrder(ss);
    WrittenHavePassed(max, window, ss, x);
    RateLimiter.SlidingBound(max, window, Times(Trace(ss)), x);
  }
}
