/** What flags, levels, names and the gate do to a message on its way to an output (sypl.go,
    process; output/output.go, Write; fastgate.go), said of whole Process and Print calls. */
module PipelineFlags {
  import opened Wrappers
  import opened LineBreaks
  import opened Text
  import opened Pipeline
  import PipelineTheorems
  import DebugMatcher

  // Nothing is listed, which stands for everybody, or this name is.
  predicate Listed(names: seq<string>, name: string) {
    names == [] || exists j :: 0 <= j < |names| && EqualFold(names[j], name)
  }

  // The logger dispatches the message at all.
  predicate Delivered(lg: Logger, env: Env, m: Message) {
    m.body.flag != SkipAndMute && (env.filter == "" || FilterMatch(env.filter, lg.name))
  }

  predicate Reaches(lg: Logger, env: Env, m: Message, o: Output) {
    Delivered(lg, env, m) && o.enabled && Listed(m.outputsNames, o.name)
  }

  // The highest level the output writes: its own, unless the variable names one for it.
  function Ceiling(lg: Logger, env: Env, o: Output): int {
    if env.level == "" then o.maxLevel
    else match DebugMatcher.Level(env.level, lg.name, o.name)
         case None => o.maxLevel
         case Some(found) => found.level
  }

  // The flag decides, or leaves it to the level.
  predicate Wanted(lg: Logger, env: Env, m: Message, o: Output, f: Flag) {
    match f
    case Mute => false
    case SkipAndMute => false
    case Force => true
    case SkipAndForce => true
    case NoFlag => m.level != 0 && m.level <= Ceiling(lg, env, o)
    case Skip => m.level != 0 && m.level <= Ceiling(lg, env, o)
  }

  lemma ContainsIff(names: seq<string>, os: seq<Output>, i: nat)
    requires i < |os|
    ensures Contains(if names != [] then names else OutputsNames(os), os[i].name) <==> Listed(names, os[i].name)
  {
    PipelineTheorems.OwnNameIsListed(os, i);
  }

  /** What decides whether an output writes a message: muted ones it never writes, forced ones
      always, and of the others those of a level that is neither none nor above its maximum, or
      the level that SYPL_LEVEL names for it. */
  lemma WrittenIff(lg: Logger, env: Env, m: Message, i: nat)
    requires i < |lg.outputs|
    ensures var o := lg.outputs[i];
            Process(lg, env, m).writes[i].Some? <==>
              Reaches(lg, env, m, o) && Wanted(lg, env, m, o, Processed(o, Dispatched(lg, m)).flag)
  {
    ContainsIff(m.outputsNames, lg.outputs, i);
  }

  /** A message that is not dispatched reaches no output and ends nothing; of those that are,
      the fatal ones end the process, whatever the outputs do. */
  lemma ExitsIff(lg: Logger, env: Env, m: Message)
    ensures Process(lg, env, m).exits <==> Delivered(lg, env, m) && m.level == 1
    ensures |Process(lg, env, m).writes| == |lg.outputs|
  {
  }

  // ---------------------------------------------------------------- what the processors make of it

  // The message's own flag keeps processors and formatters away.
  predicate Untouchable(f: Flag) {
    match f
    case Skip => true
    case SkipAndForce => true
    case SkipAndMute => true
    case NoFlag => false
    case Force => false
    case Mute => false
  }

  /** The processors in series: bs holds the message before the first and after each of them.
      A processor acts if it is enabled and listed. */
  predicate Course(o: Output, m: Message, bs: seq<Body>) {
    && |bs| == |o.processors| + 1
    && bs[0] == m.body.(processed := Stripped(m.body.processed))
    && forall j {:trigger bs[j]} :: 0 <= j < |o.processors| ==>
         var p := o.processors[j];
         bs[j + 1] == if p.enabled && Listed(m.processorsNames, p.name) then p.run(m.level, bs[j]) else bs[j]
  }

  lemma {:induction false} RunCourse(o: Output, m: Message, n: nat) returns (bs: seq<Body>)
    requires n <= |o.processors|
    ensures Course(o.(processors := o.processors[..n]), m, bs)
    ensures var b := m.body.(processed := Stripped(m.body.processed));
            bs[n] == RunAll(o.processors[..n], NamesFor(o, m), m.level, b)
    decreases n
  {
    if n == 0 {
      bs := [m.body.(processed := Stripped(m.body.processed))];
    } else {
      var before := RunCourse(o, m, n - 1);
      var p := o.processors[n - 1];
      assert o.processors[..n][..n - 1] == o.processors[..n - 1];
      OwnProcessorIsListed(o, m, n - 1);
      bs := before + [if p.enabled && Listed(m.processorsNames, p.name) then p.run(m.level, before[n - 1])
                      else before[n - 1]];
      CourseGrows(o, m, n, before, bs);
    }
  }

  lemma CourseGrows(o: Output, m: Message, n: nat, before: seq<Body>, bs: seq<Body>)
    requires 0 < n <= |o.processors| && Course(o.(processors := o.processors[..n - 1]), m, before)
    requires var p := o.processors[n - 1];
             bs == before + [if p.enabled && Listed(m.processorsNames, p.name) then p.run(m.level, before[n - 1])
                             else before[n - 1]]
    ensures Course(o.(processors := o.processors[..n]), m, bs)
  {
    forall j | 0 <= j < n
      ensures var p := o.processors[j];
              bs[j + 1] == if p.enabled && Listed(m.processorsNames, p.name) then p.run(m.level, bs[j]) else bs[j]
    {
      if j < n - 1 {
        assert before[j] == bs[j] && before[j + 1] == bs[j + 1];
        assert o.processors[..n - 1][j] == o.processors[j];
      }
    }
  }

  lemma OwnProcessorIsListed(o: Output, m: Message, j: nat)
    requires j < |o.processors|
    ensures Contains(NamesFor(o, m), o.processors[j].name) <==> Listed(m.processorsNames, o.processors[j].name)
  {
    assert EqualFold(ProcessorsNames(o.processors)[j], o.processors[j].name);
  }

  /** What an output's processors leave: the stripped message if its flag keeps them away,
      otherwise the end of their course. */
  lemma ProcessedIs(o: Output, m: Message)
    ensures Untouchable(m.body.flag) ==> Processed(o, m) == m.body.(processed := Stripped(m.body.processed))
    ensures !Untouchable(m.body.flag) ==> exists bs: seq<Body> :: Course(o, m, bs) && Processed(o, m) == bs[|bs| - 1]
  {
    if !Untouchable(m.body.flag) {
      var bs := RunCourse(o, m, |o.processors|);
      assert o.processors[..|o.processors|] == o.processors;
    }
  }

  /** What is written is what the processors leave, formatted unless the flag they leave keeps
      the formatter away, and then the line breaks the message came with. */
  lemma WrittenText(lg: Logger, env: Env, m: Message, i: nat)
    requires i < |lg.outputs| && Process(lg, env, m).writes[i].Some? && m.controlChars == []
    ensures var o := lg.outputs[i];
            var b := Processed(o, Dispatched(lg, m));
            Process(lg, env, m).writes[i].value ==
              (if o.formatter.NoFormatter? || Untouchable(b.flag) then b.processed
               else o.formatter.run(m.level, b).processed) + BreakRun(m.original)
  {
    var o, d := lg.outputs[i], Dispatched(lg, m);
    var text := Formatted(o, m.level, Processed(o, d));
    RestoreAfterStrip(m.original, text, []);
    assert Restored("", []) == "";
    assert [] + Recorded(m.original) == Recorded(m.original);
    assert text + BreakRun(m.original) + "" == text + BreakRun(m.original);
  }

  /** What an output is handed: the message with its content as it came, its own and the
      logger's tags, and the fields of both, of which its own win. */
  lemma DispatchedIs(lg: Logger, m: Message)
    ensures var d := Dispatched(lg, m);
            && d.level == m.level && d.original == m.original && d.controlChars == m.controlChars
            && d.processorsNames == m.processorsNames
            && d.body.flag == m.body.flag && d.body.processed == m.original
            && (forall t :: t in d.body.tags <==> t in m.body.tags || t in lg.tags)
            && (lg.fields.None? || m.body.fields.None? ==> d.body.fields == m.body.fields)
    ensures lg.fields.Some? && m.body.fields.Some? ==>
              var (g, own, f) := (lg.fields.value, m.body.fields.value, Dispatched(lg, m).body.fields);
              && f.Some? && f.value.Keys == g.Keys + own.Keys
              && forall k :: k in f.value ==> f.value[k] == if k in own then own[k] else g[k]
  {
  }

  // ---------------------------------------------------------------- the gate, and plain prints

  // The gate is on, no variable is set, and the level is above none and every live output.
  predicate GateFires(lg: Logger, env: Env, level: int) {
    && lg.fastGate && level > 0 && level != 1 && env.level == "" && env.filter == ""
    && forall i :: 0 <= i < |lg.outputs| && lg.outputs[i].enabled ==> lg.outputs[i].maxLevel < level
  }

  lemma {:induction false} MaxEnabledBelowIff(os: seq<Output>, level: int)
    ensures MaxEnabled(os) < level <==>
              level > 0 && forall i :: 0 <= i < |os| && os[i].enabled ==> os[i].maxLevel < level
  {
    if os != [] {
      var n := |os| - 1;
      MaxEnabledBelowIff(os[..n], level);
      assert forall i :: 0 <= i < n ==> os[..n][i] == os[i];
    }
  }

  /** What decides whether an output writes a print without options. */
  lemma PrintedIff(lg: Logger, env: Env, level: int, content: string, i: nat)
    requires i < |lg.outputs|
    ensures var o, m := lg.outputs[i], NewMessage(level, content);
            Print(lg, env, level, content).writes[i].Some? <==>
              && !GateFires(lg, env, level)
              && o.enabled && (env.filter == "" || FilterMatch(env.filter, lg.name))
              && Wanted(lg, env, m, o, Processed(o, Dispatched(lg, m)).flag)
    ensures Print(lg, env, level, content).exits <==>
              level == 1 && (env.filter == "" || FilterMatch(env.filter, lg.name))
  {
    MaxEnabledBelowIff(lg.outputs, level);
    WrittenIff(lg, env, NewMessage(level, content), i);
  }

  /** An output without processors and formatter writes every printed content of its levels as it
      is, and nothing else, whether the gate is on or off. */
  lemma PlainPrint(lg: Logger, env: Env, level: int, content: string, i: nat)
    requires i < |lg.outputs| && lg.outputs[i].processors == [] && lg.outputs[i].formatter.NoFormatter?
    ensures var o := lg.outputs[i];
            Print(lg, env, level, content).writes[i] ==
              if o.enabled && (env.filter == "" || FilterMatch(env.filter, lg.name))
                 && level != 0 && level <= Ceiling(lg, env, o)
              then Some(content) else None
  {
    var m := NewMessage(level, content);
    PrintedIff(lg, env, level, content, i);
    assert Processed(lg.outputs[i], Dispatched(lg, m)).flag == NoFlag;
    if Print(lg, env, level, content).writes[i].Some? {
      WrittenText(lg, env, m, i);
      assert Stripped(content) + BreakRun(content) == content;
    }
  }
}
