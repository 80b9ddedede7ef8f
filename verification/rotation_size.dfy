/** How long the live file gets: when its size counter is exact, and when a Write keeps the
    file within the threshold, over every run and every pattern of failures. */
module RotationSize {
  import opened Wrappers
  import opened Directory
  import opened Pruning
  import opened BackupNaming
  import opened RotatingWriter
  import opened RotationTheorems

  /** The counter is the live file's length whenever a file is open. */
  ghost predicate Synced(w: Writer, dir: Dir) {
    w.open && !w.closed ==> w.size == |Content(dir, w.path)|
  }

  /** Stat fails for a file with content that was just reopened: because there was no live
      file, or because a rotation failed before it could rename the live file away. */
  predicate StatMissed(w: Writer, dir: Dir, p: Bytes, env: Env) {
    var o := Healed(w, dir, env);
    && !w.closed && o.err == {}
    && ( || (!w.open && !env.healStat && Content(dir, w.path) != "")
         || (NeedsRotation(o.w, p) && !Renames(o.w, o.dir, env) && env.recoverOpen && !env.recoverStat))
  }

  lemma RotateSyncsIff(w: Writer, dir: Dir, env: Env)
    requires IsFile(dir, w.path) && Content(dir, w.path) != ""
    ensures var r := Rotate(w, dir, env);
            && ((r.w.open ==> r.w.size == |Content(r.dir, w.path)|) <==>
                  Renames(w, dir, env) || !env.recoverOpen || env.recoverStat)
            && (r.err == {} ==> r.w.open && Content(r.dir, w.path) == "")
  {
    var backup := ChosenName(w, dir, env);
    BackupNameIsFresh(Prefixed(w, env), Found(dir, env));
    if Renames(w, dir, env) {
      var d := Rename(dir, w.path, backup, true).value;
      assert !(w.path + "." <= w.path);
      assert w.path !in d;
      if OpenAppend(d, w.path, env.freshOpen, env.now).Some? {
        PruneFrame(OpenAppend(d, w.path, env.freshOpen, env.now).value, w.path, w.cfg, env);
      }
    }
  }

  function Max(a: int, b: int): int {
    if a > b then a else b
  }

  // The same once the live file is open and the counter exact.
  lemma WriteLiveSyncsIff(o: Outcome, p: Bytes, env: Env)
    requires IsFile(o.dir, o.w.path) && o.w.open && !o.w.closed && o.w.size == |Content(o.dir, o.w.path)| && o.err == {}
    ensures var r := WriteLive(o, p, env);
            && (Synced(r.w, r.dir) <==>
                  !(NeedsRotation(o.w, p) && !Renames(o.w, o.dir, env) && env.recoverOpen && !env.recoverStat))
            && (r.err == {} ==> r.w.open && |Content(r.dir, o.w.path)| <= Max(o.w.cfg.maxSizeBytes, |p|))
  {
    if NeedsRotation(o.w, p) {
      RotateSyncsIff(o.w, o.dir, env);
    }
  }

  /** The counter stays exact through rotations, failed rotations and self-healing, exactly
      when no Stat is missed; then a Write of p that returns nil leaves a live file no
      longer than the threshold or p itself. */
  lemma WriteRespectsSize(w: Writer, dir: Dir, p: Bytes, env: Env)
    requires Sound(w, dir) && Synced(w, dir)
    ensures var r := WriteOnce(w, dir, p, env);
            && (Synced(r.w, r.dir) <==> !StatMissed(w, dir, p, env))
            && (r.err == {} && !StatMissed(w, dir, p, env) ==>
                  r.w.open && r.n == |p| && |Content(r.dir, w.path)| <= Max(w.cfg.maxSizeBytes, |p|))
  {
    var o := Healed(w, dir, env);
    if !w.closed && o.err == {} && (w.open || env.healStat || Content(dir, w.path) == "") {
      WriteLiveSyncsIff(o, p, env);
    }
  }

  /** The counter is exact in every state of the run. */
  ghost predicate AlwaysSynced(s: World, ops: seq<Op>)
    requires Sound(s.w, s.dir)
    decreases |ops|
  {
    Synced(s.w, s.dir) && (ops != [] ==> AlwaysSynced(Step(s, ops[0]), ops[1..]))
  }

  ghost predicate NeverMissed(s: World, ops: seq<Op>)
    requires Sound(s.w, s.dir)
    decreases |ops|
  {
    ops != [] ==>
      && (ops[0].Write? ==> !StatMissed(s.w, s.dir, ops[0].p, ops[0].env))
      && NeverMissed(Step(s, ops[0]), ops[1..])
  }

  /** Through any run, an exact counter stays exact exactly until a Stat is missed. */
  lemma {:induction false} RunSyncedIff(s: World, ops: seq<Op>)
    requires Sound(s.w, s.dir) && Synced(s.w, s.dir)
    ensures AlwaysSynced(s, ops) <==> NeverMissed(s, ops)
    decreases |ops|
  {
    if ops != [] {
      var t := Step(s, ops[0]);
      if ops[0].Write? {
        WriteRespectsSize(s.w, s.dir, ops[0].p, ops[0].env);
      }
      if Synced(t.w, t.dir) {
        RunSyncedIff(t, ops[1..]);
      }
    }
  }

  // ---------------------------------------------------------------- the bound

  predicate WithinBound(w: Writer, dir: Dir, p: Bytes) {
    |Content(dir, w.path)| <= Max(w.cfg.maxSizeBytes, |p|)
  }

  /** The Write appends all of p to a file with content that it pushes past the threshold,
      because the counter is too low for a rotation. All of it can be seen before the call. */
  predicate Overfills(w: Writer, dir: Dir, p: Bytes, env: Env) {
    var o := Healed(w, dir, env);
    && !w.closed && o.err == {} && !NeedsRotation(o.w, p) && |p| <= env.accepted
    && Content(dir, w.path) != "" && |Content(dir, w.path)| + |p| > w.cfg.maxSizeBytes
  }

  lemma RotateEmpties(w: Writer, dir: Dir, env: Env)
    requires IsFile(dir, w.path) && Rotate(w, dir, env).err == {}
    ensures Rotate(w, dir, env).w.open && Content(Rotate(w, dir, env).dir, w.path) == ""
  {
    BackupNameIsFresh(Prefixed(w, env), Found(dir, env));
    var d := Rename(dir, w.path, ChosenName(w, dir, env), true).value;
    assert !(w.path + "." <= w.path);
    PruneFrame(OpenAppend(d, w.path, env.freshOpen, env.now).value, w.path, w.cfg, env);
  }

  /** A Write of p that returns nil leaves at most max(MaxSizeBytes, len p) bytes, exactly
      when it does not overfill; whatever the counter was. */
  lemma BoundIff(w: Writer, dir: Dir, p: Bytes, env: Env)
    requires Sound(w, dir)
    ensures var r := WriteOnce(w, dir, p, env);
            (r.err == {} ==> WithinBound(w, r.dir, p)) <==> !Overfills(w, dir, p, env)
  {
    var o := Healed(w, dir, env);
    if !w.closed && o.err == {} {
      assert Content(o.dir, w.path) == Content(dir, w.path);
      if NeedsRotation(o.w, p) && Rotate(o.w, o.dir, env).err == {} {
        RotateEmpties(o.w, o.dir, env);
      }
    }
  }

  /** Every Write of the run that returns nil meets the bound. */
  ghost predicate AlwaysBounded(s: World, ops: seq<Op>)
    requires Sound(s.w, s.dir)
    decreases |ops|
  {
    ops != [] ==>
      && (ops[0].Write? ==>
            var r := WriteOnce(s.w, s.dir, ops[0].p, ops[0].env);
            r.err == {} ==> WithinBound(s.w, r.dir, ops[0].p))
      && AlwaysBounded(Step(s, ops[0]), ops[1..])
  }

  ghost predicate NeverOverfills(s: World, ops: seq<Op>)
    requires Sound(s.w, s.dir)
    decreases |ops|
  {
    ops != [] ==>
      && (ops[0].Write? ==> !Overfills(s.w, s.dir, ops[0].p, ops[0].env))
      && NeverOverfills(Step(s, ops[0]), ops[1..])
  }

  lemma {:induction false} RunBoundedIff(s: World, ops: seq<Op>)
    requires Sound(s.w, s.dir)
    ensures AlwaysBounded(s, ops) <==> NeverOverfills(s, ops)
    decreases |ops|
  {
    if ops != [] {
      if ops[0].Write? {
        BoundIff(s.w, s.dir, ops[0].p, ops[0].env);
      }
      RunBoundedIff(Step(s, ops[0]), ops[1..]);
    }
  }

  /** An exact counter overfills nothing until a Stat is missed, through any run. */
  lemma {:induction false} SyncedRunBounded(s: World, ops: seq<Op>)
    requires Sound(s.w, s.dir) && Synced(s.w, s.dir) && NeverMissed(s, ops)
    ensures AlwaysBounded(s, ops)
    decreases |ops|
  {
    if ops != [] {
      if ops[0].Write? {
        WriteRespectsSize(s.w, s.dir, ops[0].p, ops[0].env);
      }
      SyncedRunBounded(Step(s, ops[0]), ops[1..]);
    }
  }

  // ---------------------------------------------------------------- from the factory

  /** The factory refuses an empty path, a threshold that is not positive, a directory it cannot
      make, and a file it cannot open, and nothing else. */
  lemma MakeSucceedsIff(cfg: Config, path: string, dir: Dir, mkdirOk: bool, statOk: bool, openOk: bool, now: int)
    ensures Make(cfg, path, dir, mkdirOk, statOk, openOk, now).Some? <==>
              path != "" && cfg.maxSizeBytes > 0 && mkdirOk && openOk && !(path in dir && dir[path].Folder?)
  {
  }

  /** The factory keeps existing content, and starts with an exact counter unless its own
      Stat fails for a file that has content. */
  lemma MakeSyncedIff(cfg: Config, path: string, dir: Dir, mkdirOk: bool, statOk: bool, openOk: bool, now: int)
    requires Make(cfg, path, dir, mkdirOk, statOk, openOk, now).Some?
    ensures var (w, d) := Make(cfg, path, dir, mkdirOk, statOk, openOk, now).value;
            && Sound(w, d) && Faithful([], d, path) && w.path == path && w.cfg == cfg && cfg.maxSizeBytes > 0
            && Content(d, path) == Content(dir, path) && (forall n :: n != path ==> SameEntry(d, dir, n))
            && (Synced(w, d) <==> statOk || Content(dir, path) == "")
  {
  }

  /** So from the factory on the counter is exact in every state exactly when neither the
      factory nor a Write missed a Stat; and then every nil Write meets the bound. */
  lemma FactoryRunSyncedIff(cfg: Config, path: string, dir: Dir, mkdirOk: bool, statOk: bool, openOk: bool, now: int,
                            ops: seq<Op>)
    requires Make(cfg, path, dir, mkdirOk, statOk, openOk, now).Some?
    ensures var (w, d) := Make(cfg, path, dir, mkdirOk, statOk, openOk, now).value;
            var s := World(w, d, []);
            && Sound(w, d)
            && (AlwaysSynced(s, ops) <==> (statOk || Content(dir, path) == "") && NeverMissed(s, ops))
            && (AlwaysSynced(s, ops) ==> AlwaysBounded(s, ops))
  {
    var (w, d) := Make(cfg, path, dir, mkdirOk, statOk, openOk, now).value;
    var s := World(w, d, []);
    MakeSyncedIff(cfg, path, dir, mkdirOk, statOk, openOk, now);
    if Synced(w, d) {
      RunSyncedIff(s, ops);
      if NeverMissed(s, ops) {
        SyncedRunBounded(s, ops);
      }
    }
  }

  /** A Stat that fails in the factory lets the first Write pass the threshold. */
  lemma FactoryStatBreaksBound(env: Env)
    requires env.accepted >= 1
    ensures var dir := map["a" := File("wxyz", 0)];
            var made := Make(Config(4, 0, 0), "a", dir, true, false, true, 0);
            && made.Some? && !StatMissed(made.value.0, made.value.1, "1", env)
            && var r := WriteOnce(made.value.0, made.value.1, "1", env);
               r.err == {} && !WithinBound(made.value.0, r.dir, "1")
  {
    var dir: Dir := map["a" := File("wxyz", 0)];
    var (w, d) := Make(Config(4, 0, 0), "a", dir, true, false, true, 0).value;
    BoundIff(w, d, "1", env);
  }

  /** The assumption on Stat is needed: after a recovery whose Stat failed the counter
      restarts from zero, and a later Write that returns nil passes the threshold. */
  lemma StatFailureBreaksBound(env1: Env, env2: Env)
    requires !env1.close && env1.recoverOpen && !env1.recoverStat && env1.accepted >= 1 && env2.accepted >= 1
    ensures var w := Writer(Config(4, 0, 0), "a", false, true, 4);
            var dir := map["a" := File("wxyz", 0)];
            && Sound(w, dir) && Synced(w, dir)
            && var r := WriteOnce(w, dir, "1", env1);
               var r' := WriteOnce(r.w, r.dir, "2", env2);
               r'.err == {} && |Content(r'.dir, "a")| > Max(4, 1)
  {
    var w := Writer(Config(4, 0, 0), "a", false, true, 4);
    var dir: Dir := map["a" := File("wxyz", 0)];
    var r := WriteOnce(w, dir, "1", env1);
    assert r.w == w.(size := 1) && Content(r.dir, "a") == "wxyz1";
    var r' := WriteOnce(r.w, r.dir, "2", env2);
    assert Content(r'.dir, "a") == "wxyz12";
  }
}
