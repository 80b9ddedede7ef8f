/** What the rotating writer conserves over every sequence of writes and every pattern of
    failures: no byte reported as written is lost except by pruning. */
module RotationTheorems {
  import opened Wrappers
  import opened Directory
  import opened Pruning
  import opened BackupNaming
  import opened RotatingWriter

  // A segment of the log that a rotation moved to a backup, and whether pruning left it there.
  datatype Segment = Segment(name: string, bytes: Bytes, kept: bool)

  type Segments = seq<Segment>

  function Concat(h: Segments): Bytes {
    if h == [] then "" else Concat(h[..|h| - 1]) + h[|h| - 1].bytes
  }

  // A name that several segments were given is that of the newest of them: the file there
  // is its file.
  predicate Newest(h: Segments, i: nat)
    requires i < |h|
  {
    forall j :: i < j < |h| && h[j].kept ==> h[j].name != h[i].name
  }

  /** Pruning removes files: of the segments with a removed name, the newest loses its file.
      One that had lost it before, to a rename, is not excused by the pruning. */
  function Unlink(h: Segments, removed: set<string>): (r: Segments)
    ensures |r| == |h|
    ensures forall i :: 0 <= i < |h| ==>
              r[i] == h[i].(kept := h[i].kept && !(h[i].name in removed && Newest(h, i)))
  {
    seq(|h|, i requires 0 <= i < |h| => h[i].(kept := h[i].kept && !(h[i].name in removed && Newest(h, i))))
  }

  /** The history after a Write: the moved segment is appended, the removed ones marked. */
  function Note(h: Segments, t: Trace): Segments {
    var grown := match t.rotated case None => h case Some((name, bytes)) => h + [Segment(name, bytes, true)];
    Unlink(grown, t.removed)
  }

  /** Every kept segment is a backup on disk with exactly its bytes, and no two share a name. */
  ghost predicate Faithful(h: Segments, dir: Dir, path: string) {
    && (forall i :: 0 <= i < |h| && h[i].kept ==>
          path + "." <= h[i].name && IsFile(dir, h[i].name) && dir[h[i].name].bytes == h[i].bytes)
    && (forall i, j :: 0 <= i < j < |h| && h[i].kept && h[j].kept ==> h[i].name != h[j].name)
  }

  /** The whole log: the rotated segments in order, and then the live file. */
  function Log(h: Segments, dir: Dir, path: string): Bytes {
    Concat(h) + Content(dir, path)
  }

  lemma {:induction false} ConcatSame(h: Segments, g: Segments)
    requires |h| == |g| && forall i :: 0 <= i < |h| ==> h[i].bytes == g[i].bytes
    ensures Concat(h) == Concat(g)
  {
    if h != [] {
      var n := |h| - 1;
      ConcatSame(h[..n], g[..n]);
    }
  }

  lemma ConcatGrow(h: Segments, s: Segment)
    ensures Concat(h + [s]) == Concat(h) + s.bytes
  {
    assert (h + [s])[..|h|] == h;
  }

  // ---------------------------------------------------------------- one step at a time

  // Opening the live file changes no other entry and no content.
  lemma OpenKeeps(h: Segments, dir: Dir, path: string, ok: bool, now: int)
    requires OpenAppend(dir, path, ok, now).Some? && Faithful(h, dir, path)
    ensures var d := OpenAppend(dir, path, ok, now).value;
            Faithful(h, d, path) && Content(d, path) == Content(dir, path)
  {
    assert !(path + "." <= path);
  }

  lemma LandKeeps(h: Segments, r: Outcome, p: Bytes, env: Env)
    requires IsFile(r.dir, r.w.path) && Faithful(h, r.dir, r.w.path)
    ensures var l := Land(r, p, env);
            Faithful(h, l.dir, r.w.path) && Content(l.dir, r.w.path) == Content(r.dir, r.w.path) + p[..l.n]
  {
    assert !(r.w.path + "." <= r.w.path);
  }

  /** Renaming the live file over an existing name destroys a segment exactly when the name
      is one of the kept segments'. */
  lemma RenameKeepsIff(h: Segments, dir: Dir, path: string, backup: string)
    requires Faithful(h, dir, path) && Rename(dir, path, backup, true).Some? && path + "." <= backup
    ensures var d := Rename(dir, path, backup, true).value;
            Faithful(h + [Segment(backup, Content(dir, path), true)], d, path) <==>
              (forall i :: 0 <= i < |h| && h[i].kept ==> h[i].name != backup)
    ensures Content(Rename(dir, path, backup, true).value, path) == ""
  {
    var d := Rename(dir, path, backup, true).value;
    var g := h + [Segment(backup, Content(dir, path), true)];
    assert !(path + "." <= path);
    if i :| 0 <= i < |h| && h[i].kept && h[i].name == backup {
      assert g[i].kept && g[|h|].kept && g[i].name == g[|h|].name;
    } else {
      forall i | 0 <= i < |g| && g[i].kept
        ensures path + "." <= g[i].name && IsFile(d, g[i].name) && d[g[i].name].bytes == g[i].bytes
      {
      }
    }
  }

  lemma PruneKeeps(h: Segments, dir: Dir, path: string, cfg: Config, env: Env)
    requires Faithful(h, dir, path)
    ensures var r := Prune(dir, path, cfg, env);
            && Faithful(Unlink(h, r.attempted - r.failed), r.dir, path)
            && Content(r.dir, path) == Content(dir, path)
  {
    PruneFrame(dir, path, cfg, env);
  }

  lemma RecoverKeeps(h: Segments, w: Writer, dir: Dir, env: Env, cause: Fault, trace: Trace)
    requires Faithful(h, dir, w.path)
    ensures var r := Recover(w, dir, env, cause, trace);
            Faithful(h, r.dir, w.path) && Content(r.dir, w.path) == Content(dir, w.path)
  {
    if OpenAppend(dir, w.path, env.recoverOpen, env.now).Some? {
      OpenKeeps(h, dir, w.path, env.recoverOpen, env.now);
    }
  }

  // From h and dir to the outcome r, the log grew by `extra` and no kept segment suffered.
  ghost predicate Conserved(h: Segments, dir: Dir, path: string, r: Outcome, extra: Bytes) {
    && Faithful(Note(h, r.trace), r.dir, path)
    && Log(Note(h, r.trace), r.dir, path) == Log(h, dir, path) + extra
  }

  lemma NoteQuiet(h: Segments)
    ensures Note(h, QUIET) == h
  {
  }

  lemma QuietConserves(h: Segments, dir: Dir, path: string, r: Outcome)
    requires Faithful(h, r.dir, path) && Content(r.dir, path) == Content(dir, path) && r.trace == QUIET
    ensures Conserved(h, dir, path, r, "")
  {
    NoteQuiet(h);
    assert Log(h, dir, path) + "" == Log(h, dir, path);
  }

  /** The Write would rotate, and the name it would choose is that of a kept segment. All
      of it can be seen before the call. */
  predicate TakesKept(h: Segments, w: Writer, dir: Dir, p: Bytes, env: Env) {
    var o := Healed(w, dir, env);
    && !w.closed && o.err == {} && NeedsRotation(o.w, p) && Renames(o.w, o.dir, env)
    && NameKept(h, ChosenName(o.w, o.dir, env))
  }

  predicate NameKept(h: Segments, name: string) {
    exists i :: 0 <= i < |h| && h[i].kept && h[i].name == name
  }

  // The segment whose name was taken stays on record, but its file is the newest segment's,
  // or none.
  lemma TakenNotFaithful(h: Segments, t: Trace, dir: Dir, path: string)
    requires t.rotated.Some? && NameKept(h, t.rotated.value.0)
    requires forall n :: n in t.removed ==> n !in dir
    ensures !Faithful(Note(h, t), dir, path)
  {
    var (name, bytes) := t.rotated.value;
    var i :| 0 <= i < |h| && h[i].kept && h[i].name == name;
    var grown := h + [Segment(name, bytes, true)];
    var g := Note(h, t);
    assert grown[|h|].kept && grown[|h|].name == grown[i].name;
    assert g[i].kept && g[i].name == name;
    if name !in t.removed {
      assert g[|h|].kept && g[|h|].name == name;
    }
  }

  // Everything after a successful rename, given the history that includes the moved segment.
  lemma AfterRenameKeeps(g: Segments, w: Writer, d: Dir, env: Env, moved: (string, Bytes))
    requires Faithful(g, d, w.path)
    ensures var r := AfterRename(w, d, env, moved);
            && r.trace.rotated == Some(moved)
            && Faithful(Unlink(g, r.trace.removed), r.dir, w.path)
            && Content(r.dir, w.path) == Content(d, w.path)
  {
    match OpenAppend(d, w.path, env.freshOpen, env.now)
    case None =>
      RecoverKeeps(g, w, d, env, FreshOpenFailed, Trace(Some(moved), {}));
      assert Unlink(g, {}) == g;
    case Some(d') =>
      OpenKeeps(g, d, w.path, env.freshOpen, env.now);
      PruneKeeps(g, d', w.path, w.cfg, env);
  }

  lemma MovedKeeps(h: Segments, w: Writer, dir: Dir, env: Env, backup: string)
    requires Faithful(h, dir, w.path) && Rename(dir, w.path, backup, true).Some? && w.path + "." <= backup
    requires !NameKept(h, backup)
    ensures var d := Rename(dir, w.path, backup, true).value;
            var r := AfterRename(w, d, env, (backup, Content(dir, w.path)));
            && r.trace.rotated == Some((backup, Content(dir, w.path)))
            && Faithful(Note(h, r.trace), r.dir, w.path) && Content(r.dir, w.path) == ""
  {
    var d := Rename(dir, w.path, backup, true).value;
    var moved := (backup, Content(dir, w.path));
    RenameKeepsIff(h, dir, w.path, backup);
    AfterRenameKeeps(h + [Segment(backup, moved.1, true)], w, d, env, moved);
  }

  lemma NoteGrows(h: Segments, t: Trace)
    ensures Concat(Note(h, t)) == Concat(h) + match t.rotated case None => "" case Some((_, bytes)) => bytes
  {
    match t.rotated
    case None =>
      ConcatSame(h, Unlink(h, t.removed));
      assert Concat(h) + "" == Concat(h);
    case Some((name, bytes)) =>
      ConcatGrow(h, Segment(name, bytes, true));
      ConcatSame(h + [Segment(name, bytes, true)], Unlink(h + [Segment(name, bytes, true)], t.removed));
  }

  lemma RotateConserves(h: Segments, w: Writer, dir: Dir, env: Env)
    requires Faithful(h, dir, w.path) && IsFile(dir, w.path)
    requires Renames(w, dir, env) ==> !NameKept(h, ChosenName(w, dir, env))
    ensures Conserved(h, dir, w.path, Rotate(w, dir, env), "")
  {
    var backup := ChosenName(w, dir, env);
    BackupNameIsFresh(Prefixed(w, env), Found(dir, env));
    if Renames(w, dir, env) {
      MovedKeeps(h, w, dir, env, backup);
      NoteGrows(h, Rotate(w, dir, env).trace);
    } else {
      var cause := if env.close then RenameFailed else CloseFailed;
      RecoverKeeps(h, w, dir, env, cause, QUIET);
      QuietConserves(h, dir, w.path, Rotate(w, dir, env));
    }
  }

  lemma LandConserves(h: Segments, dir: Dir, r: Outcome, p: Bytes, env: Env)
    requires IsFile(r.dir, r.w.path) && Conserved(h, dir, r.w.path, r, "")
    ensures Conserved(h, dir, r.w.path, Land(r, p, env), p[..Land(r, p, env).n])
  {
    var g, l := Note(h, r.trace), Land(r, p, env);
    LandKeeps(g, r, p, env);
    assert Log(g, l.dir, r.w.path) == Log(g, r.dir, r.w.path) + p[..l.n];
    assert Log(h, dir, r.w.path) + "" == Log(h, dir, r.w.path);
  }

  // The bytes of p that a Write reports as written.
  function Reported(r: Outcome, p: Bytes): Bytes {
    if r.n <= |p| then p[..r.n] else p
  }

  lemma WriteLiveConserves(h: Segments, o: Outcome, p: Bytes, env: Env)
    requires Faithful(h, o.dir, o.w.path) && IsFile(o.dir, o.w.path)
    requires NeedsRotation(o.w, p) && Renames(o.w, o.dir, env) ==> !NameKept(h, ChosenName(o.w, o.dir, env))
    requires o.n == 0 && o.trace == QUIET
    ensures WriteLive(o, p, env).n <= |p|
    ensures Conserved(h, o.dir, o.w.path, WriteLive(o, p, env), Reported(WriteLive(o, p, env), p))
  {
    if NeedsRotation(o.w, p) {
      var r := Rotate(o.w, o.dir, env);
      RotateConserves(h, o.w, o.dir, env);
      RotateWritesNothing(o.w, o.dir, env);
      if r.w.open {
        LandConserves(h, o.dir, r, p, env);
      }
    } else {
      QuietConserves(h, o.dir, o.w.path, o);
      LandConserves(h, o.dir, o, p, env);
    }
  }

  lemma RotateWritesNothing(w: Writer, dir: Dir, env: Env)
    ensures Rotate(w, dir, env).n == 0
  {
  }

  // A rotation that takes a kept name shows it in its trace, and what it prunes is gone.
  lemma RotateTakes(w: Writer, dir: Dir, env: Env)
    requires Renames(w, dir, env)
    ensures var t := Rotate(w, dir, env).trace;
            && t.rotated.Some? && t.rotated.value.0 == ChosenName(w, dir, env)
            && (forall n :: n in t.removed ==> n !in Rotate(w, dir, env).dir && n != w.path)
  {
    var d := Rename(dir, w.path, ChosenName(w, dir, env), true).value;
    match OpenAppend(d, w.path, env.freshOpen, env.now)
    case None =>
    case Some(d') =>
      PruneFrame(d', w.path, w.cfg, env);
      forall n | n in Prune(d', w.path, w.cfg, env).attempted
        ensures n != w.path
      {
        assert n in Backups(d', w.path);
      }
  }

  lemma TakesNotFaithful(h: Segments, w: Writer, dir: Dir, p: Bytes, env: Env)
    requires Sound(w, dir) && TakesKept(h, w, dir, p, env)
    ensures var r := WriteOnce(w, dir, p, env); !Faithful(Note(h, r.trace), r.dir, w.path)
  {
    var o, r := Healed(w, dir, env), WriteOnce(w, dir, p, env);
    RotateTakes(o.w, o.dir, env);
    assert r.trace == Rotate(o.w, o.dir, env).trace;
    TakenNotFaithful(h, r.trace, r.dir, w.path);
  }

  /** One Write, whatever fails: the log grows by exactly the bytes reported as written,
      and every segment that pruning did not remove is intact, exactly when the rotation
      does not take the name of a kept one. */
  lemma WriteConservesIff(h: Segments, w: Writer, dir: Dir, p: Bytes, env: Env)
    requires Sound(w, dir) && Faithful(h, dir, w.path)
    ensures var r := WriteOnce(w, dir, p, env);
            r.n <= |p| && (Conserved(h, dir, w.path, r, Reported(r, p)) <==> !TakesKept(h, w, dir, p, env))
  {
    var o, r := Healed(w, dir, env), WriteOnce(w, dir, p, env);
    if TakesKept(h, w, dir, p, env) {
      TakesNotFaithful(h, w, dir, p, env);
    } else if w.closed || o.err != {} {
      QuietConserves(h, dir, w.path, r);
    } else {
      if !w.open {
        OpenKeeps(h, dir, w.path, env.healOpen, env.now);
      }
      WriteLiveConserves(h, o, p, env);
    }
  }

  /** The name is a kept segment's only if Lstat fails for that segment's file. */
  lemma TakenNotFound(h: Segments, w: Writer, dir: Dir, p: Bytes, env: Env)
    requires Sound(w, dir) && Faithful(h, dir, w.path) && TakesKept(h, w, dir, p, env)
    ensures ChosenName(w, Healed(w, dir, env).dir, env) in env.lstatFails
  {
    var o := Healed(w, dir, env);
    BackupNameIsFresh(Prefixed(w, env), Found(o.dir, env));
  }

  // ---------------------------------------------------------------- runs

  datatype Op = Write(p: Bytes, env: Env) | Close

  datatype World = World(w: Writer, dir: Dir, h: Segments)

  ghost predicate WorldInv(s: World) {
    Sound(s.w, s.dir) && Faithful(s.h, s.dir, s.w.path)
  }

  ghost function Step(s: World, op: Op): (r: World)
    requires Sound(s.w, s.dir)
    ensures Sound(r.w, r.dir) && r.w.path == s.w.path && r.w.cfg == s.w.cfg
  {
    match op
    case Close => s.(w := Shut(s.w))
    case Write(p, env) =>
      var r := WriteOnce(s.w, s.dir, p, env);
      World(r.w, r.dir, Note(s.h, r.trace))
  }

  ghost function Run(s: World, ops: seq<Op>): (r: World)
    requires Sound(s.w, s.dir)
    ensures Sound(r.w, r.dir) && r.w.path == s.w.path && r.w.cfg == s.w.cfg
    decreases |ops|
  {
    if ops == [] then s else Run(Step(s, ops[0]), ops[1..])
  }

  ghost function StepWritten(s: World, op: Op): Bytes
    requires Sound(s.w, s.dir)
  {
    match op case Close => "" case Write(p, env) => Reported(WriteOnce(s.w, s.dir, p, env), p)
  }

  /** All bytes reported as written during the run. */
  ghost function Written(s: World, ops: seq<Op>): Bytes
    requires Sound(s.w, s.dir)
    decreases |ops|
  {
    if ops == [] then "" else StepWritten(s, ops[0]) + Written(Step(s, ops[0]), ops[1..])
  }

  ghost function WorldLog(s: World): Bytes {
    Log(s.h, s.dir, s.w.path)
  }

  predicate Takes(s: World, op: Op) {
    op.Write? && TakesKept(s.h, s.w, s.dir, op.p, op.env)
  }

  lemma StepIntactIff(s: World, op: Op)
    requires WorldInv(s)
    ensures WorldInv(Step(s, op)) <==> !Takes(s, op)
    ensures !Takes(s, op) ==> WorldLog(Step(s, op)) == WorldLog(s) + StepWritten(s, op)
  {
    match op
    case Close => assert WorldLog(s) + "" == WorldLog(s);
    case Write(p, env) =>
      WriteConservesIff(s.h, s.w, s.dir, p, env);
      if Takes(s, op) {
        TakesNotFaithful(s.h, s.w, s.dir, p, env);
      }
  }

  /** Every segment that pruning spared is on disk, whole, under a name of its own, in every
      state of the run. */
  ghost predicate AlwaysIntact(s: World, ops: seq<Op>)
    requires Sound(s.w, s.dir)
    decreases |ops|
  {
    WorldInv(s) && (ops != [] ==> AlwaysIntact(Step(s, ops[0]), ops[1..]))
  }

  ghost predicate NeverTakesKept(s: World, ops: seq<Op>)
    requires Sound(s.w, s.dir)
    decreases |ops|
  {
    ops != [] ==> !Takes(s, ops[0]) && NeverTakesKept(Step(s, ops[0]), ops[1..])
  }

  /** Rotation never loses bytes, whatever fails, exactly as long as no rotation takes the
      name of a kept segment. */
  lemma {:induction false} RotationIntactIff(s: World, ops: seq<Op>)
    requires WorldInv(s)
    ensures AlwaysIntact(s, ops) <==> NeverTakesKept(s, ops)
    decreases |ops|
  {
    if ops != [] {
      StepIntactIff(s, ops[0]);
      if !Takes(s, ops[0]) {
        RotationIntactIff(Step(s, ops[0]), ops[1..]);
      }
    }
  }

  /** Then the rotated segments in order followed by the live file are the content there was
      at the start followed by every byte reported as written. */
  lemma {:induction false} LogGrows(s: World, ops: seq<Op>)
    requires WorldInv(s) && NeverTakesKept(s, ops)
    ensures WorldLog(Run(s, ops)) == WorldLog(s) + Written(s, ops)
    decreases |ops|
  {
    if ops == [] {
      AppendNothing(WorldLog(s));
    } else {
      StepIntactIff(s, ops[0]);
      LogGrows(Step(s, ops[0]), ops[1..]);
      AppendTwice(WorldLog(s), StepWritten(s, ops[0]), Written(Step(s, ops[0]), ops[1..]));
    }
  }

  lemma AppendNothing(a: Bytes)
    ensures a + "" == a
  {
  }

  lemma AppendTwice(a: Bytes, b: Bytes, c: Bytes)
    ensures (a + b) + c == a + (b + c)
  {
  }

  lemma {:induction false} FoundNeverTaken(s: World, ops: seq<Op>)
    requires WorldInv(s)
    requires forall i :: 0 <= i < |ops| && ops[i].Write? ==> ops[i].env.lstatFails == {}
    ensures NeverTakesKept(s, ops)
    decreases |ops|
  {
    if ops != [] {
      if Takes(s, ops[0]) {
        TakenNotFound(s.h, s.w, s.dir, ops[0].p, ops[0].env);
      }
      StepIntactIff(s, ops[0]);
      FoundNeverTaken(Step(s, ops[0]), ops[1..]);
    }
  }

  /** In particular when Lstat fails for absent names only. */
  lemma RotationNeverLosesBytes(s: World, ops: seq<Op>)
    requires WorldInv(s)
    requires forall i :: 0 <= i < |ops| && ops[i].Write? ==> ops[i].env.lstatFails == {}
    ensures AlwaysIntact(s, ops)
    ensures WorldLog(Run(s, ops)) == WorldLog(s) + Written(s, ops)
  {
    FoundNeverTaken(s, ops);
    RotationIntactIff(s, ops);
    LogGrows(s, ops);
  }

  /** The assumption on Lstat is needed: if it fails for a backup that is there, the rename
      replaces that backup. */
  lemma LstatFailureLosesBytes(env: Env)
    requires env.close && env.rename && env.freshOpen && env.list && env.accepted >= 1
    requires env.stamp == "s" && env.lstatFails == {"a.s"}
    ensures var w := Writer(Config(2, 0, 0), "a", false, true, 2);
            var dir := map["a" := File("xy", 0), "a.s" := File("old", 0)];
            var h := [Segment("a.s", "old", true)];
            && Sound(w, dir) && Faithful(h, dir, "a")
            && var r := WriteOnce(w, dir, "z", env);
               r.err == {} && Content(r.dir, "a.s") == "xy" && !Faithful(Note(h, r.trace), r.dir, "a")
  {
    var w := Writer(Config(2, 0, 0), "a", false, true, 2);
    var dir: Dir := map["a" := File("xy", 0), "a.s" := File("old", 0)];
    var h := [Segment("a.s", "old", true)];
    assert "a" + "." == "a." && "a." + "s" == "a.s" && "a." <= "a.s";
    assert Prefixed(w, env) == "a.s";
    assert BackupName("a.s", Found(dir, env)) == "a.s";
    var d := Rename(dir, "a", "a.s", true).value;
    assert d == map["a.s" := File("xy", 0)];
    var d' := OpenAppend(d, "a", true, env.now).value;
    assert Surplus(d', "a", w.cfg) == {} && Expired(d', "a", w.cfg, env) == {};
    var pruned := Prune(d', "a", w.cfg, env);
    assert pruned.dir == d' && PruneError(pruned) == {};
    var r := WriteOnce(w, dir, "z", env);
    var g := Note(h, r.trace);
    assert g == h + [Segment("a.s", "xy", true)];
    assert g[0].kept && g[1].kept && g[0].name == g[1].name;
  }

  // The entry of that name, or its absence, is the same in both directories.
  predicate SameEntry(d1: Dir, d2: Dir, n: string) {
    (n in d1 <==> n in d2) && (n in d1 ==> d1[n] == d2[n])
  }

  lemma RotateLeavesOthers(w: Writer, dir: Dir, env: Env, n: string)
    requires n != w.path && !(w.path + "." <= n)
    ensures SameEntry(Rotate(w, dir, env).dir, dir, n)
  {
    var backup := ChosenName(w, dir, env);
    BackupNameIsFresh(Prefixed(w, env), Found(dir, env));
    assert w.path + "." <= backup;
    if env.close && Rename(dir, w.path, backup, env.rename).Some? {
      AfterRenameLeavesOthers(w, Rename(dir, w.path, backup, env.rename).value, env, (backup, Content(dir, w.path)), n);
    }
  }

  lemma AfterRenameLeavesOthers(w: Writer, d: Dir, env: Env, moved: (string, Bytes), n: string)
    requires n != w.path && !(w.path + "." <= n)
    ensures SameEntry(AfterRename(w, d, env, moved).dir, d, n)
  {
    match OpenAppend(d, w.path, env.freshOpen, env.now)
    case None =>
    case Some(d') => PruneFrame(d', w.path, w.cfg, env);
  }

  /** Entries that are neither the live file nor its backups are never touched. */
  lemma OthersUntouched(w: Writer, dir: Dir, p: Bytes, env: Env, n: string)
    requires Sound(w, dir) && n != w.path && !(w.path + "." <= n)
    ensures SameEntry(WriteOnce(w, dir, p, env).dir, dir, n)
  {
    var o := Healed(w, dir, env);
    assert SameEntry(o.dir, dir, n);
    RotateLeavesOthers(o.w, o.dir, env, n);
  }

  /** ... nor by any run. */
  lemma {:induction false} OthersUntouchedByRun(s: World, ops: seq<Op>, n: string)
    requires Sound(s.w, s.dir) && n != s.w.path && !(s.w.path + "." <= n)
    ensures SameEntry(Run(s, ops).dir, s.dir, n)
    decreases |ops|
  {
    if ops != [] {
      if ops[0].Write? {
        OthersUntouched(s.w, s.dir, ops[0].p, ops[0].env, n);
      }
      OthersUntouchedByRun(Step(s, ops[0]), ops[1..], n);
    }
  }

  // ---------------------------------------------------------------- without a live file

  lemma RotateLeavesOpenIff(w: Writer, dir: Dir, env: Env)
    requires IsFile(dir, w.path)
    ensures Rotate(w, dir, env).w.open <==> (Renames(w, dir, env) && env.freshOpen) || env.recoverOpen
  {
    BackupNameIsFresh(Prefixed(w, env), Found(dir, env));
    assert !(w.path + "." <= w.path);
  }

  /** A Write brings a missing live file back, and so ends the failing of Sync, exactly when
      its reopen succeeds, and a rotation that it then needs, if any, does not lose the file
      again. */
  lemma WriteHealsIff(w: Writer, dir: Dir, p: Bytes, env: Env)
    requires Sound(w, dir) && !w.open && !w.closed
    ensures SyncResult(w, true) == {Unavailable}
    ensures var o := Healed(w, dir, env);
            SyncResult(WriteOnce(w, dir, p, env).w, true) == {} <==>
              && o.err == {}
              && (NeedsRotation(o.w, p) ==>
                    (Renames(o.w, o.dir, env) && env.freshOpen) || env.recoverOpen)
  {
    var o := Healed(w, dir, env);
    if o.err == {} && NeedsRotation(o.w, p) {
      RotateLeavesOpenIff(o.w, o.dir, env);
    }
  }

  // The reopen with which a Write begins fails.
  predicate HealFails(s: World, op: Op) {
    op.Write? && OpenAppend(s.dir, s.w.path, op.env.healOpen, op.env.now).None?
  }

  /** Sync does not retry: without a live file it fails, however often it is called and
      whatever the file system allows, until a Write reopens the file or the writer is
      closed; and the failing Writes change nothing. */
  lemma {:induction false} SyncFailsUntilHealed(s: World, ops: seq<Op>, syncOk: bool)
    requires Sound(s.w, s.dir) && !s.w.open && !s.w.closed
    requires forall i :: 0 <= i < |ops| ==> HealFails(s, ops[i])
    ensures Run(s, ops).w == s.w && Run(s, ops).dir == s.dir
    ensures SyncResult(Run(s, ops).w, syncOk) == {Unavailable}
    decreases |ops|
  {
    if ops != [] {
      NoteQuiet(s.h);
      assert Step(s, ops[0]) == s;
      SyncFailsUntilHealed(s, ops[1..], syncOk);
    }
  }
}
