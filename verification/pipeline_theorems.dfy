/** What the dispatch pipeline guarantees: the fast gate agrees with the full pipeline,
    printed text keeps its line breaks, and messages carry the logger's fields. */
module PipelineTheorems {
  import opened Wrappers
  import opened LineBreaks
  import opened Text
  import opened Pipeline

  // ---------------------------------------------------------------- the fast gate

  // A processor of this output turned a fresh message into a forced one.
  predicate ForcesFresh(lg: Logger, o: Output, level: int, content: string) {
    o.enabled && Forcing(Processed(o, Dispatched(lg, NewMessage(level, content))).flag)
  }

  lemma OwnNameIsListed(os: seq<Output>, i: nat)
    requires i < |os|
    ensures Contains(OutputsNames(os), os[i].name)
  {
    assert EqualFold(OutputsNames(os)[i], os[i].name);
  }

  // With the variables unset, an output above whose maximum the message lies writes it
  // only if it was forced.
  lemma GatedOutput(lg: Logger, env: Env, i: nat, level: int, content: string)
    requires Gated(lg, env, level) && i < |lg.outputs|
    ensures Process(lg, env, NewMessage(level, content)).writes[i].Some?
        <==> ForcesFresh(lg, lg.outputs[i], level, content)
  {
    OwnNameIsListed(lg.outputs, i);
  }

  /** The gate is transparent exactly when it does not fire, or no processor of an enabled
      output would have forced the message: then every output gets the same bytes, and the
      process exits or not, as without the gate. */
  lemma GateTransparentIff(lg: Logger, env: Env, level: int, content: string)
    ensures Print(lg.(fastGate := true), env, level, content) == Print(lg.(fastGate := false), env, level, content) <==>
            (Gated(lg.(fastGate := true), env, level) ==>
               forall i :: 0 <= i < |lg.outputs| ==> !ForcesFresh(lg, lg.outputs[i], level, content))
  {
    var on, off := lg.(fastGate := true), lg.(fastGate := false);
    var m := NewMessage(level, content);
    assert Process(on, env, m) == Process(off, env, m) by {
      assert Prepared(on, m) == Prepared(off, m);
    }
    if Gated(on, env, level) {
      forall i | 0 <= i < |lg.outputs|
        ensures Process(off, env, m).writes[i].Some? <==> ForcesFresh(lg, lg.outputs[i], level, content)
      {
        GatedOutput(on, env, i, level, content);
        assert Prepared(on, m) == Prepared(lg, m);
      }
      var silent := Silence(on);
      if forall i :: 0 <= i < |lg.outputs| ==> !ForcesFresh(lg, lg.outputs[i], level, content) {
        assert Process(off, env, m).writes == silent.writes;
      } else {
        var i :| 0 <= i < |lg.outputs| && ForcesFresh(lg, lg.outputs[i], level, content);
        assert Process(off, env, m).writes[i] != silent.writes[i];
      }
    }
  }

  /** A processor that never makes an unforced message forced. */
  ghost predicate Tame(p: Processor) {
    forall level: int, b: Body :: !Forcing(b.flag) ==> !Forcing(p.run(level, b).flag)
  }

  ghost predicate TameLogger(lg: Logger) {
    forall i, j :: 0 <= i < |lg.outputs| && 0 <= j < |lg.outputs[i].processors| ==> Tame(lg.outputs[i].processors[j])
  }

  lemma {:induction false} TameRun(ps: seq<Processor>, names: seq<string>, level: int, b: Body)
    requires forall j :: 0 <= j < |ps| ==> Tame(ps[j])
    requires !Forcing(b.flag)
    ensures !Forcing(RunAll(ps, names, level, b).flag)
  {
    if ps != [] {
      TameRun(ps[..|ps| - 1], names, level, b);
    }
  }

  /** With such processors the gate changes nothing, at any level, for any configuration. */
  lemma GateTransparent(lg: Logger, env: Env, level: int, content: string)
    requires TameLogger(lg)
    ensures Print(lg.(fastGate := true), env, level, content) == Print(lg.(fastGate := false), env, level, content)
  {
    forall i | 0 <= i < |lg.outputs|
      ensures !ForcesFresh(lg, lg.outputs[i], level, content)
    {
      var o := lg.outputs[i];
      var m := Dispatched(lg, NewMessage(level, content));
      TameRun(o.processors, NamesFor(o, m), level, m.body.(processed := Stripped(m.body.processed)));
    }
    GateTransparentIff(lg, env, level, content);
  }

  // A program: prints, and reconfigurations that replace the logger's settings, its gate aside.
  datatype Op = PrintCall(level: int, content: string) | Reconfigure(to: Logger)

  ghost function Program(lg: Logger, env: Env, gate: bool, ops: seq<Op>): seq<Dispatch>
    decreases |ops|
  {
    if ops == [] then []
    else match ops[0]
         case PrintCall(level, content) =>
           [Print(lg.(fastGate := gate), env, level, content)] + Program(lg, env, gate, ops[1..])
         case Reconfigure(to) => Program(to, env, gate, ops[1..])
  }

  /** Whole programs, reconfiguration included, produce the same output with the gate on
      as with the gate off. */
  lemma {:induction false} GateRefinesPipeline(lg: Logger, env: Env, ops: seq<Op>)
    requires TameLogger(lg) && forall i :: 0 <= i < |ops| && ops[i].Reconfigure? ==> TameLogger(ops[i].to)
    ensures Program(lg, env, true, ops) == Program(lg, env, false, ops)
    decreases |ops|
  {
    if ops != [] {
      match ops[0]
      case PrintCall(level, content) =>
        GateTransparent(lg, env, level, content);
        GateRefinesPipeline(lg, env, ops[1..]);
      case Reconfigure(to) =>
        GateRefinesPipeline(to, env, ops[1..]);
    }
  }

  // ---------------------------------------------------------------- the text

  /** What a fresh message prints is the formatted result of processing its stripped text,
      followed by exactly the line breaks it ended in, in their order. */
  lemma PrintedText(lg: Logger, env: Env, level: int, content: string, i: nat)
    requires i < |lg.outputs| && Print(lg, env, level, content).writes[i].Some?
    ensures var o := lg.outputs[i];
            var m := Dispatched(lg, NewMessage(level, content));
            var b := m.body.(processed := Stripped(content));
            Print(lg, env, level, content).writes[i].value ==
              Formatted(o, level, RunAll(o.processors, NamesFor(o, m), level, b)) + BreakRun(content)
  {
    var o := lg.outputs[i];
    var m := Dispatched(lg, NewMessage(level, content));
    var text := Formatted(o, level, Processed(o, m));
    RestoreAfterStrip(content, text, []);
    assert Restored("", []) == "";
    assert text + BreakRun(content) + "" == text + BreakRun(content);
  }

  // ---------------------------------------------------------------- one output, all fields

  // What a message prints on one output depends on no other: the pure half of isolation,
  // for which see ConcurrentOutputs.
  lemma OutputAlone(lg: Logger, env: Env, m: Message, i: nat)
    requires i < |lg.outputs|
    ensures Process(lg, env, m).writes[i] == Process(lg.(outputs := [lg.outputs[i]]), env, m).writes[0]
  {
    var alone := lg.(outputs := [lg.outputs[i]]);
    OwnNameIsListed(lg.outputs, i);
    OwnNameIsListed(alone.outputs, 0);
    var p, q := Prepared(lg, m), Prepared(alone, m);
    assert Copy(p) == Copy(q).(outputsNames := p.outputsNames);
    assert Processed(lg.outputs[i], Copy(p)) == Processed(lg.outputs[i], Copy(q));
  }

  // What a message carries under a key.
  function Carried(m: Message, key: string): Option<string> {
    if m.body.fields.Some? && key in m.body.fields.value then Some(m.body.fields.value[key]) else None
  }

  /** A global field reaches the outputs exactly when the message does not set it itself and
      its fields map is not nil: a caller that passes nil to SetFields loses them all. */
  lemma GlobalFieldsCarriedIff(lg: Logger, m: Message, key: string)
    requires lg.fields.Some? && key in lg.fields.value
    ensures Carried(m, key).Some? ==> Carried(Dispatched(lg, m), key) == Carried(m, key)
    ensures Carried(m, key).None? ==>
              (Carried(Dispatched(lg, m), key) == Some(lg.fields.value[key]) <==> m.body.fields.Some?)
    ensures m.body.fields.None? ==> Dispatched(lg, m).body.fields.None?
  {
  }

  /** A message printed without options carries every global field. */
  lemma PrintCarriesGlobalFields(lg: Logger, level: int, content: string)
    requires lg.fields.Some?
    ensures Dispatched(lg, NewMessage(level, content)).body.fields == lg.fields
  {
    var none: Fields := map[];
    assert lg.fields.value + none == lg.fields.value;
  }

  // A formatter that prints a field, if the message carries it.
  function ShowField(key: string): Formatter {
    Format((level, b: Body) =>
      b.(processed := if b.fields.Some? && key in b.fields.value then "=" + b.fields.value[key] else ""))
  }

  /** So it shows in what is written: an output that prints the field prints the global value
      or nothing. */
  lemma GlobalFieldPrintedIff(lg: Logger, env: Env, m: Message, key: string, i: nat)
    requires lg.fields.Some? && key in lg.fields.value && Carried(m, key).None?
    requires i < |lg.outputs| && lg.outputs[i].processors == [] && lg.outputs[i].formatter == ShowField(key)
    requires m.body.flag == NoFlag && Process(lg, env, m).writes[i].Some? && m.controlChars == []
    ensures Process(lg, env, m).writes[i].value
         == (if m.body.fields.Some? then "=" + lg.fields.value[key] else "") + BreakRun(m.original)
  {
    var o, d := lg.outputs[i], Dispatched(lg, m);
    GlobalFieldsCarriedIff(lg, m, key);
    var text := Formatted(o, m.level, Processed(o, d));
    RestoreAfterStrip(m.original, text, []);
    assert Restored("", []) == "";
    assert text + BreakRun(m.original) + "" == text + BreakRun(m.original);
    assert [] + Recorded(m.original) == Recorded(m.original);
  }
}
