/** The dispatch pipeline (sypl.go, output/output.go, message/message.go) and the fast gate
    in front of it (fastgate.go). */
module Pipeline {
  import opened Wrappers
  import opened LineBreaks
  import opened Text
  import DebugMatcher

  datatype Flag = NoFlag | Force | Mute | Skip | SkipAndForce | SkipAndMute

  type Fields = map<string, string>

  const LEVEL_NONE := 0

  const LEVEL_FATAL := 1

  // What processors and formatters can change; the level of a message is fixed, and a nil
  // fields map is None.
  datatype Body = Body(flag: Flag, processed: string, tags: set<string>, fields: Option<Fields>)

  datatype Processor = Processor(name: string, enabled: bool, run: (int, Body) -> Body)

  datatype Formatter = NoFormatter | Format(run: (int, Body) -> Body)

  // What the writer does with a text. The two errors of a pipe or a file that is already
  // closed are swallowed.
  datatype Sink = Accepts | BrokenPipe | AlreadyClosed | Fails

  datatype Output = Output(
    name: string, enabled: bool, maxLevel: int, processors: seq<Processor>, formatter: Formatter, sink: Sink)

  datatype Message = Message(
    level: int, original: string, controlChars: seq<string>, body: Body,
    outputsNames: seq<string>, processorsNames: seq<string>)

  datatype Logger = Logger(
    name: string, fastGate: bool, outputs: seq<Output>, tags: set<string>, fields: Option<Fields>)

  // The values of SYPL_LEVEL and SYPL_FILTER; empty when unset.
  datatype Env = Env(level: string, filter: string)

  // What each output's writer received, if anything, and whether the process exits.
  datatype Dispatch = Dispatch(writes: seq<Option<string>>, exits: bool)

  function NewMessage(level: int, content: string): Message {
    Message(level, content, [], Body(NoFlag, content, {}, Some(map[])), [], [])
  }

  /** message.Copy: the processed content restarts from the original. */
  function Copy(m: Message): Message {
    m.(body := m.body.(processed := m.original))
  }

  predicate Skipping(f: Flag) {
    f == Skip || f == SkipAndForce || f == SkipAndMute
  }

  predicate Forcing(f: Flag) {
    f == Force || f == SkipAndForce
  }

  predicate Muting(f: Flag) {
    f == Mute || f == SkipAndMute
  }

  /** contains: exact, case-insensitive. */
  predicate Contains(list: seq<string>, name: string) {
    exists i :: 0 <= i < |list| && EqualFold(list[i], name)
  }

  // ---------------------------------------------------------------- one output

  function ProcessorsNames(ps: seq<Processor>): (r: seq<string>)
    ensures |r| == |ps| && forall i :: 0 <= i < |ps| ==> r[i] == ps[i].name
  {
    seq(|ps|, i requires 0 <= i < |ps| => ps[i].name)
  }

  function RunOne(p: Processor, names: seq<string>, level: int, b: Body): Body {
    if Contains(names, p.name) && p.enabled then p.run(level, b) else b
  }

  /** The processors in series: the enabled ones that are named. */
  function RunAll(ps: seq<Processor>, names: seq<string>, level: int, b: Body): Body {
    if ps == [] then b
    else RunOne(ps[|ps| - 1], names, level, RunAll(ps[..|ps| - 1], names, level, b))
  }

  function NamesFor(o: Output, m: Message): seq<string> {
    if m.processorsNames != [] then m.processorsNames else ProcessorsNames(o.processors)
  }

  // The message as its processors leave it, its line breaks stripped.
  function Processed(o: Output, m: Message): Body {
    var b := m.body.(processed := Stripped(m.body.processed));
    if Skipping(b.flag) then b else RunAll(o.processors, NamesFor(o, m), m.level, b)
  }

  function Formatted(o: Output, level: int, b: Body): string {
    if o.formatter.Format? && !Skipping(b.flag) then o.formatter.run(level, b).processed else b.processed
  }

  function Rendered(o: Output, m: Message): string {
    Restored(Formatted(o, m.level, Processed(o, m)), m.controlChars + Recorded(m.body.processed))
  }

  function FinalMaxLevel(o: Output, env: Env, component: string): int {
    if env.level == "" then o.maxLevel
    else match DebugMatcher.Level(env.level, component, o.name)
         case None => o.maxLevel
         case Some(f) => f.level
  }

  predicate Prints(o: Output, m: Message, env: Env, component: string) {
    var f := Processed(o, m).flag;
    || Forcing(f)
    || (m.level != LEVEL_NONE && m.level <= FinalMaxLevel(o, env, component) && !Muting(f))
  }

  /** output.Write: what reaches the writer. */
  function WriteTo(o: Output, m: Message, env: Env, component: string): Option<string> {
    if Prints(o, m, env, component) then Some(Rendered(o, m)) else None
  }

  // ---------------------------------------------------------------- the logger

  function OutputsNames(os: seq<Output>): (r: seq<string>)
    ensures |r| == |os| && forall i :: 0 <= i < |os| ==> r[i] == os[i].name
  {
    seq(|os|, i requires 0 <= i < |os| => os[i].name)
  }

  // fields.Copy(src, dst): nil when the source is nil, whatever the destination holds.
  function CopyFields(src: Option<Fields>, dst: Fields): Option<Fields> {
    match src case None => None case Some(f) => Some(dst + f)
  }

  function MergedFields(global: Option<Fields>, own: Option<Fields>): Option<Fields> {
    match global case None => own case Some(g) => CopyFields(own, g)
  }

  predicate IsSpace(c: char) {
    c in " \t\n\r" || c as int == 11 || c as int == 12
  }

  function TrimSpace(s: string): string {
    if s != "" && IsSpace(s[0]) then TrimSpace(s[1..])
    else if s != "" && IsSpace(s[|s| - 1]) then TrimSpace(s[..|s| - 1])
    else s
  }

  predicate FilterMatch(filter: string, name: string) {
    exists i :: 0 <= i < |Split(filter, ',')| && EqualFold(TrimSpace(Split(filter, ',')[i]), name)
  }

  function Silence(lg: Logger): Dispatch {
    Dispatch(seq(|lg.outputs|, _ => None), false)
  }

  // The message every output gets a copy of.
  function Prepared(lg: Logger, m: Message): Message {
    m.(outputsNames := if m.outputsNames != [] then m.outputsNames else OutputsNames(lg.outputs),
       body := m.body.(fields := MergedFields(lg.fields, m.body.fields), tags := m.body.tags + lg.tags))
  }

  /** What an output is handed. */
  function Dispatched(lg: Logger, m: Message): Message {
    Copy(Prepared(lg, m))
  }

  predicate Eligible(o: Output, m: Message) {
    o.enabled && Contains(m.outputsNames, o.name)
  }

  function WriteIfEligible(o: Output, m: Message, env: Env, component: string): Option<string> {
    if Eligible(o, m) then WriteTo(o, Copy(m), env, component) else None
  }

  /** process and processOutputs. The outputs are written concurrently; each has its own
      copy of the message, so the result does not depend on their order. */
  function Process(lg: Logger, env: Env, m: Message): Dispatch {
    if m.body.flag == SkipAndMute || (env.filter != "" && !FilterMatch(env.filter, lg.name)) then Silence(lg)
    else
      var p := Prepared(lg, m);
      Dispatch(seq(|lg.outputs|, i requires 0 <= i < |lg.outputs| => WriteIfEligible(lg.outputs[i], p, env, lg.name)),
               m.level == LEVEL_FATAL)
  }

  function MaxEnabled(os: seq<Output>): (r: int)
    ensures r >= LEVEL_NONE
    ensures forall i :: 0 <= i < |os| && os[i].enabled ==> os[i].maxLevel <= r
  {
    if os == [] then LEVEL_NONE
    else
      var r := MaxEnabled(os[..|os| - 1]);
      var o := os[|os| - 1];
      if o.enabled && o.maxLevel > r then o.maxLevel else r
  }

  predicate Gated(lg: Logger, env: Env, level: int) {
    && lg.fastGate && level != LEVEL_FATAL
    && env.level == "" && env.filter == ""
    && level > MaxEnabled(lg.outputs)
  }

  predicate EachProcessed(lg: Logger, env: Env, ms: seq<Message>, ds: seq<Dispatch>) {
    |ds| <= |ms| && forall i :: 0 <= i < |ds| ==> ds[i] == Process(lg, env, ms[i])
  }

  lemma EachProcessedGrows(lg: Logger, env: Env, ms: seq<Message>, ds: seq<Dispatch>, d: Dispatch)
    requires EachProcessed(lg, env, ms, ds) && |ds| < |ms| && d == Process(lg, env, ms[|ds|])
    ensures EachProcessed(lg, env, ms, ds + [d])
  {
  }

  predicate AnyExits(ds: seq<Dispatch>) {
    exists i :: 0 <= i < |ds| && ds[i].exits
  }

  lemma AnyExitsGrows(ds: seq<Dispatch>, d: Dispatch)
    ensures AnyExits(ds + [d]) <==> AnyExits(ds) || d.exits
  {
    var more := ds + [d];
    assert more[|ds|] == d;
    if AnyExits(ds) {
      var i :| 0 <= i < |ds| && ds[i].exits;
      assert more[i] == ds[i];
    }
  }

  /** A Print call without options. */
  function Print(lg: Logger, env: Env, level: int, content: string): Dispatch {
    if Gated(lg, env, level) then Silence(lg) else Process(lg, env, NewMessage(level, content))
  }

  // ---------------------------------------------------------------- the implementation

  class OutputUnit {
    const name: string
    var enabled: bool
    var maxLevel: int
    var processors: seq<Processor>
    var formatter: Formatter
    var sink: Sink

    ghost function View(): Output
      reads this
    {
      Output(name, enabled, maxLevel, processors, formatter, sink)
    }

    constructor (name: string, maxLevel: int, sink: Sink, processors: seq<Processor>)
      ensures View() == Output(name, true, maxLevel, processors, NoFormatter, sink)
    {
      this.name, enabled, this.maxLevel, this.processors := name, true, maxLevel, processors;
      formatter, this.sink := NoFormatter, sink;
    }

    method GetProcessorsNames() returns (names: seq<string>)
      ensures names == ProcessorsNames(processors)
    {
      names := [];
      for i := 0 to |processors|
        invariant names == ProcessorsNames(processors)[..i]
      {
        names := names + [processors[i].name];
      }
    }

    method ProcessProcessors(level: int, b: Body, names: seq<string>) returns (r: Body)
      ensures r == if Skipping(b.flag) then b else RunAll(processors, names, level, b)
    {
      r := b;
      if !Skipping(b.flag) {
        for i := 0 to |processors|
          invariant r == RunAll(processors[..i], names, level, b)
        {
          assert processors[..i + 1][..i] == processors[..i];
          var p := processors[i];
          if Contains(names, p.name) {
            if p.enabled {
              r := p.run(level, r);
            }
          }
        }
        assert processors[..|processors|] == processors;
      }
    }

    /** output.Write. */
    method Write(m: Message, env: Env, component: string) returns (written: Option<string>, failed: bool)
      ensures written == WriteTo(View(), m, env, component)
      ensures failed <==> written.Some? && sink == Fails
    {
      var names := GetProcessorsNames();
      if |m.processorsNames| > 0 {
        names := m.processorsNames;
      }
      assert names == NamesFor(View(), m);
      var content := new Content(m.body.processed, m.controlChars, true);
      content.Strip();
      var b := ProcessProcessors(m.level, m.body.(processed := content.processed), names);
      content.processed := b.processed;
      assert b == Processed(View(), m);
      if Forcing(b.flag) {
        written, failed := Emit(m.level, b, content);
      } else {
        var finalMaxLevel := GetFinalMaxLevel(env, component);
        if m.level != LEVEL_NONE && m.level <= finalMaxLevel && !Muting(b.flag) {
          written, failed := Emit(m.level, b, content);
        } else {
          written, failed := None, false;
        }
      }
    }

    // The output's own maximum, unless the debug variable names a level for it.
    method GetFinalMaxLevel(env: Env, component: string) returns (level: int)
      ensures level == FinalMaxLevel(View(), env, component)
    {
      level := maxLevel;
      if env.level != "" {
        var found := DebugMatcher.Level(env.level, component, name);
        if found.Some? {
          level := found.value.level;
        }
      }
    }

    // output.write: format, restore, and hand the text to the writer.
    method Emit(level: int, b: Body, content: Content) returns (written: Option<string>, failed: bool)
      requires content.enabled && content.processed == b.processed
      modifies content
      ensures written == Some(Restored(Formatted(View(), level, b), old(content.controlChars)))
      ensures failed <==> sink == Fails
    {
      if formatter.Format? && !Skipping(b.flag) {
        content.processed := formatter.run(level, b).processed;
      }
      content.Restore();
      written := Some(content.processed);
      failed := match sink
                case Accepts => false
                case BrokenPipe => false
                case AlreadyClosed => false
                case Fails => true;
    }
  }

  class Sypl {
    const name: string
    var fastGate: bool
    var outputs: seq<OutputUnit>
    var tags: set<string>
    var fields: Option<Fields>

    ghost function Views(): (r: seq<Output>)
      reads this, outputs
      ensures |r| == |outputs| && forall i :: 0 <= i < |outputs| ==> r[i] == outputs[i].View()
    {
      seq(|outputs|, i requires 0 <= i < |outputs| reads this, outputs => outputs[i].View())
    }

    ghost function View(): Logger
      reads this, outputs
    {
      Logger(name, fastGate, Views(), tags, fields)
    }

    constructor (name: string, outputs: seq<OutputUnit>)
      ensures this.name == name && this.outputs == outputs && !fastGate && tags == {} && fields == Some(map[])
    {
      this.name, fastGate, this.outputs, tags, fields := name, false, outputs, {}, Some(map[]);
    }

    /** fastGated: one pass over the live outputs. */
    method FastGated(level: int, env: Env) returns (gated: bool)
      ensures gated == Gated(View(), env, level)
    {
      if !fastGate {
        return false;
      }
      if level == LEVEL_FATAL {
        return false;
      }
      if env.level != "" || env.filter != "" {
        return false;
      }
      var maxEnabledLevel := LEVEL_NONE;
      for i := 0 to |outputs|
        invariant maxEnabledLevel == MaxEnabled(Views()[..i])
      {
        assert Views()[..i + 1][..i] == Views()[..i];
        if !outputs[i].enabled {
          continue;
        }
        if outputs[i].maxLevel > maxEnabledLevel {
          maxEnabledLevel := outputs[i].maxLevel;
        }
      }
      assert Views()[..|outputs|] == Views();
      return level > maxEnabledLevel;
    }

    method GetOutputsNames() returns (names: seq<string>)
      ensures names == OutputsNames(Views())
    {
      names := [];
      for i := 0 to |outputs|
        invariant names == OutputsNames(Views())[..i]
      {
        names := names + [outputs[i].name];
      }
    }

    // processOutputs: an isolated copy per eligible output.
    method ProcessOutputs(m: Message, env: Env) returns (writes: seq<Option<string>>, failed: seq<bool>)
      ensures |writes| == |failed| == |outputs|
      ensures forall i :: 0 <= i < |outputs| ==>
                && writes[i] == WriteIfEligible(Views()[i], m, env, name)
                && (failed[i] <==> writes[i].Some? && Views()[i].sink == Fails)
    {
      writes, failed := [], [];
      for i := 0 to |outputs|
        invariant |writes| == |failed| == i
        invariant forall j :: 0 <= j < i ==>
                    && writes[j] == WriteIfEligible(Views()[j], m, env, name)
                    && (failed[j] <==> writes[j].Some? && Views()[j].sink == Fails)
      {
        var o := outputs[i];
        if !o.enabled || !Contains(m.outputsNames, o.name) {
          writes, failed := writes + [None], failed + [false];
        } else {
          var written, bad := o.Write(Copy(m), env, name);
          writes, failed := writes + [written], failed + [bad];
        }
      }
    }

    /** process, for one message. `failed` says which outputs' errors the handler hears. */
    method DoProcess(m: Message, env: Env) returns (d: Dispatch, failed: seq<bool>)
      ensures d == Process(View(), env, m)
      ensures |failed| == |outputs|
      ensures forall i :: 0 <= i < |outputs| ==> (failed[i] <==> d.writes[i].Some? && Views()[i].sink == Fails)
    {
      var silent := seq(|outputs|, _ => None);
      failed := seq(|outputs|, _ => false);
      if m.body.flag == SkipAndMute {
        return Dispatch(silent, false), failed;
      }
      if env.filter != "" && !FilterMatch(env.filter, name) {
        return Dispatch(silent, false), failed;
      }
      var names := GetOutputsNames();
      if |m.outputsNames| > 0 {
        names := m.outputsNames;
      }
      var b := m.body.(tags := m.body.tags + tags);
      if fields.Some? {
        b := b.(fields := CopyFields(b.fields, fields.value));
      }
      var prepared := m.(outputsNames := names, body := b);
      assert prepared == Prepared(View(), m);
      var writes: seq<Option<string>>;
      writes, failed := ProcessOutputs(prepared, env);
      d := Dispatch(writes, m.level == LEVEL_FATAL);
    }

    /** process, for all messages of a call: each is dispatched on its own, and the process
        exits if any of those that were dispatched is fatal. */
    method DoProcessAll(ms: seq<Message>, env: Env) returns (ds: seq<Dispatch>, exits: bool)
      ensures |ds| == |ms| && EachProcessed(View(), env, ms, ds) && exits == AnyExits(ds)
    {
      ghost var lg := View();
      ds, exits := [], false;
      for i := 0 to |ms|
        invariant i == |ds| && EachProcessed(lg, env, ms, ds)
        invariant exits == AnyExits(ds)
      {
        var d, _ := DoProcess(ms[i], env);
        AnyExitsGrows(ds, d);
        EachProcessedGrows(lg, env, ms, ds, d);
        ds := ds + [d];
        exits := exits || d.exits;
      }
    }

    method DoPrint(level: int, content: string, env: Env) returns (d: Dispatch, failed: seq<bool>)
      ensures d == Print(View(), env, level, content)
      ensures |failed| == |outputs|
      ensures forall i :: 0 <= i < |outputs| ==> (failed[i] <==> d.writes[i].Some? && Views()[i].sink == Fails)
    {
      var gated := FastGated(level, env);
      if gated {
        return Dispatch(seq(|outputs|, _ => None), false), seq(|outputs|, _ => false);
      }
      d, failed := DoProcess(NewMessage(level, content), env);
    }
  }
}
