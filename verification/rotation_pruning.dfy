/** What a Write does to the backups and what it reports (output/rotate.go, Write), said of the
    Write as a whole: when it rotates, what its rotation prunes, and which errors it joins. */
module RotationPruning {
  import opened Wrappers
  import opened Directory
  import opened Pruning
  import opened BackupNaming
  import opened RotatingWriter
  import opened RotationTheorems
  import opened RotationSize

  // ---------------------------------------------------------------- when it rotates

  // The path can be opened for appending: no folder is in the way.
  predicate Opens(dir: Dir, path: string, ok: bool) {
    ok && !(path in dir && dir[path].Folder?)
  }

  // There is a live file to write to, possibly after reopening it.
  predicate HasLive(w: Writer, dir: Dir, env: Env) {
    !w.closed && (w.open || Opens(dir, w.path, env.healOpen))
  }

  // The live file has content that p would push past the threshold.
  predicate WouldPass(w: Writer, dir: Dir, p: Bytes) {
    Content(dir, w.path) != "" && |Content(dir, w.path)| + |p| > w.cfg.maxSizeBytes
  }

  // The directory in which the name for the backup is sought.
  function LiveDir(w: Writer, dir: Dir, env: Env): Dir {
    if w.open || w.path in dir then dir else dir[w.path := File("", env.now)]
  }

  function BackupFor(w: Writer, dir: Dir, env: Env): string {
    BackupName(w.path + "." + env.stamp, Found(LiveDir(w, dir, env), env))
  }

  // The close and the rename of a rotation succeed.
  predicate CanMove(w: Writer, dir: Dir, env: Env) {
    var backup := BackupFor(w, dir, env);
    env.close && env.rename && !(backup in dir && dir[backup].Folder?)
  }

  /** With an exact counter, a Write moves the live file away exactly when it has content that
      the Write would push past the threshold, and close and rename succeed. What it moves is
      the whole content, under the first free name of the stamp. */
  lemma RotatesIff(w: Writer, dir: Dir, p: Bytes, env: Env)
    requires Sound(w, dir) && Synced(w, dir) && (w.open || env.healStat)
    ensures var t := WriteOnce(w, dir, p, env).trace;
            && (t.rotated.Some? <==> HasLive(w, dir, env) && WouldPass(w, dir, p) && CanMove(w, dir, env))
            && (t.rotated.Some? ==> t.rotated.value == (BackupFor(w, dir, env), Content(dir, w.path)))
            && (t.rotated.None? ==> t.removed == {})
  {
    var o := Healed(w, dir, env);
    assert Prefixed(o.w, env) == w.path + "." + env.stamp;
    if HasLive(w, dir, env) {
      assert o.err == {} && o.dir == LiveDir(w, dir, env) && Content(o.dir, w.path) == Content(dir, w.path);
      assert o.w.size == |Content(dir, w.path)|;
      if NeedsRotation(o.w, p) {
        RotateMovesIff(o.w, o.dir, env);
      }
    }
  }

  lemma RotateMovesIff(w: Writer, dir: Dir, env: Env)
    ensures var t := Rotate(w, dir, env).trace;
            && (t.rotated.Some? <==> Renames(w, dir, env))
            && (t.rotated.Some? ==> t.rotated.value == (ChosenName(w, dir, env), Content(dir, w.path)))
            && (t.rotated.None? ==> t.removed == {})
  {
  }

  // ---------------------------------------------------------------- what it prunes

  // The directory after the rename: as before, with the segment under its new name.
  function Moved(w: Writer, dir: Dir, t: Trace): Dir
    requires t.rotated.Some? && IsFile(dir, w.path)
  {
    (dir - {w.path})[t.rotated.value.0 := dir[w.path]]
  }

  // Beyond the cap by name, or inspectable and past the age.
  predicate Due(d: Dir, path: string, cfg: Config, env: Env, n: string) {
    && n in d && d[n].File? && path + "." <= n
    && ( || (cfg.maxBackups > 0 && Rank(Backups(d, path), n) >= cfg.maxBackups)
         || (cfg.maxAgeDays > 0 && n !in env.statFails && d[n].mtime < Cutoff(env.now, cfg.maxAgeDays)))
  }

  lemma SameBackups(d: Dir, path: string, now: int)
    requires OpenAppend(d, path, true, now).Some?
    ensures var d' := OpenAppend(d, path, true, now).value;
            Backups(d', path) == Backups(d, path) && forall n :: n != path ==> SameEntry(d', d, n)
  {
    assert !(path + "." <= path);
  }

  // A rotation whose fresh open and listing succeed removes what is due.
  lemma RotatePrunes(w: Writer, dir: Dir, env: Env, n: string)
    requires IsFile(dir, w.path) && Renames(w, dir, env) && env.freshOpen && env.list
    requires n in Backups(Moved(w, dir, Rotate(w, dir, env).trace), w.path)
    ensures var r := Rotate(w, dir, env);
            n !in r.dir <==> Due(Moved(w, dir, r.trace), w.path, w.cfg, env, n) && n !in env.removeFails
  {
    var d := Rename(dir, w.path, ChosenName(w, dir, env), true).value;
    BackupNameIsFresh(Prefixed(w, env), Found(dir, env));
    assert !(w.path + "." <= w.path);
    SameBackups(d, w.path, env.now);
    var d' := OpenAppend(d, w.path, true, env.now).value;
    assert SameEntry(d', d, n);
    AttemptsExactly(d', w.path, w.cfg, env, n);
  }

  lemma LandKeepsOthers(r: Outcome, p: Bytes, env: Env, n: string)
    requires IsFile(r.dir, r.w.path) && n != r.w.path
    ensures SameEntry(Land(r, p, env).dir, r.dir, n)
  {
  }

  // After its rotation a Write touches nothing but the live file.
  lemma WriteAfterRotate(w: Writer, dir: Dir, p: Bytes, env: Env, n: string)
    requires Sound(w, dir) && WriteOnce(w, dir, p, env).trace.rotated.Some? && n != w.path
    ensures var o := Healed(w, dir, env);
            && NeedsRotation(o.w, p) && IsFile(o.dir, w.path)
            && WriteOnce(w, dir, p, env).trace == Rotate(o.w, o.dir, env).trace
            && SameEntry(WriteOnce(w, dir, p, env).dir, Rotate(o.w, o.dir, env).dir, n)
  {
    var o := Healed(w, dir, env);
    var r := Rotate(o.w, o.dir, env);
    if r.w.open {
      LandKeepsOthers(r, p, env, n);
    }
  }

  lemma LiveDirIsHealed(w: Writer, dir: Dir, env: Env)
    requires Sound(w, dir) && !w.closed && Healed(w, dir, env).err == {}
    ensures Healed(w, dir, env).dir == LiveDir(w, dir, env) && IsFile(LiveDir(w, dir, env), w.path)
  {
  }

  /** A Write that rotated, and whose fresh open and listing succeed, has removed exactly the
      backups that were due, but for those that cannot be removed. */
  lemma WritePrunesIff(w: Writer, dir: Dir, p: Bytes, env: Env, n: string)
    requires Sound(w, dir) && WriteOnce(w, dir, p, env).trace.rotated.Some? && env.freshOpen && env.list
    requires IsFile(LiveDir(w, dir, env), w.path)
    requires n in Backups(Moved(w, LiveDir(w, dir, env), WriteOnce(w, dir, p, env).trace), w.path)
    ensures var r := WriteOnce(w, dir, p, env);
            n !in r.dir <==>
              Due(Moved(w, LiveDir(w, dir, env), r.trace), w.path, w.cfg, env, n) && n !in env.removeFails
  {
    var o := Healed(w, dir, env);
    assert !(w.path + "." <= w.path);
    WriteAfterRotate(w, dir, p, env, n);
    LiveDirIsHealed(w, dir, env);
    RotateMovesIff(o.w, o.dir, env);
    RotatePrunes(o.w, o.dir, env, n);
  }

  // ---------------------------------------------------------------- the cap

  lemma NoErrorIff(q: Pruned)
    ensures PruneError(q) == {} <==> Clean(q)
  {
    if q.listed && q.failed != {} {
      var n :| n in q.failed;
      assert RemoveFailed(n) in PruneError(q);
    }
  }

  lemma RotateCaps(w: Writer, dir: Dir, env: Env)
    requires IsFile(dir, w.path) && w.cfg.maxBackups > 0
    requires var r := Rotate(w, dir, env); r.trace.rotated.Some? && r.err == {}
    ensures |Backups(Rotate(w, dir, env).dir, w.path)| <= w.cfg.maxBackups
  {
    RotateMovesIff(w, dir, env);
    var d := Rename(dir, w.path, ChosenName(w, dir, env), true).value;
    var d' := OpenAppend(d, w.path, env.freshOpen, env.now).value;
    NoErrorIff(Prune(d', w.path, w.cfg, env));
    CapIsMet(d', w.path, w.cfg, env);
  }

  // Backups are told by name and kind, and the live file is none.
  lemma BackupsSame(d1: Dir, d2: Dir, path: string)
    requires forall n :: n != path ==> SameEntry(d1, d2, n)
    ensures Backups(d1, path) == Backups(d2, path)
  {
    assert !(path + "." <= path);
    forall n
      ensures n in Backups(d1, path) <==> n in Backups(d2, path)
    {
      if n != path {
        assert SameEntry(d1, d2, n);
      }
    }
  }

  lemma WriteErrors(w: Writer, dir: Dir, p: Bytes, env: Env)
    requires Sound(w, dir) && WriteOnce(w, dir, p, env).trace.rotated.Some?
    ensures var o := Healed(w, dir, env); Rotate(o.w, o.dir, env).err <= WriteOnce(w, dir, p, env).err
  {
  }

  /** A Write that rotated and returns nil leaves at most MaxBackups backups, if there is a
      cap. */
  lemma RotatedWriteCaps(w: Writer, dir: Dir, p: Bytes, env: Env)
    requires Sound(w, dir) && w.cfg.maxBackups > 0
    requires var r := WriteOnce(w, dir, p, env); r.trace.rotated.Some? && r.err == {}
    ensures |Backups(WriteOnce(w, dir, p, env).dir, w.path)| <= w.cfg.maxBackups
  {
    var o, r := Healed(w, dir, env), WriteOnce(w, dir, p, env);
    WriteErrors(w, dir, p, env);
    forall n | n != w.path
      ensures SameEntry(r.dir, Rotate(o.w, o.dir, env).dir, n)
    {
      WriteAfterRotate(w, dir, p, env, n);
    }
    WriteAfterRotate(w, dir, p, env, w.path + ".");
    BackupsSame(r.dir, Rotate(o.w, o.dir, env).dir, w.path);
    RotateCaps(o.w, o.dir, env);
  }

  /** A Write that does not rotate leaves the backups as they are. */
  lemma QuietWriteKeepsBackups(w: Writer, dir: Dir, p: Bytes, env: Env, n: string)
    requires Sound(w, dir) && WriteOnce(w, dir, p, env).trace.rotated.None? && n != w.path
    ensures SameEntry(WriteOnce(w, dir, p, env).dir, dir, n)
  {
    var o := Healed(w, dir, env);
    if !w.closed && o.err == {} && NeedsRotation(o.w, p) {
      RotateMovesIff(o.w, o.dir, env);
      var r := Rotate(o.w, o.dir, env);
      assert SameEntry(r.dir, o.dir, n);
      if r.w.open {
        LandKeepsOthers(r, p, env, n);
      }
    }
  }

  // Every Write of the run that rotates returns nil.
  ghost predicate RotationsSucceed(s: World, ops: seq<Op>)
    requires Sound(s.w, s.dir)
    decreases |ops|
  {
    ops != [] ==>
      && (ops[0].Write? ==>
            var r := WriteOnce(s.w, s.dir, ops[0].p, ops[0].env); r.trace.rotated.Some? ==> r.err == {})
      && RotationsSucceed(Step(s, ops[0]), ops[1..])
  }

  lemma StepCaps(s: World, op: Op)
    requires Sound(s.w, s.dir) && s.w.cfg.maxBackups > 0 && |Backups(s.dir, s.w.path)| <= s.w.cfg.maxBackups
    requires op.Write? ==> var r := WriteOnce(s.w, s.dir, op.p, op.env); r.trace.rotated.Some? ==> r.err == {}
    ensures |Backups(Step(s, op).dir, s.w.path)| <= s.w.cfg.maxBackups
  {
    if op.Write? {
      var r := WriteOnce(s.w, s.dir, op.p, op.env);
      if r.trace.rotated.Some? {
        RotatedWriteCaps(s.w, s.dir, op.p, op.env);
      } else {
        forall n | n != s.w.path
          ensures SameEntry(r.dir, s.dir, n)
        {
          QuietWriteKeepsBackups(s.w, s.dir, op.p, op.env, n);
        }
        BackupsSame(r.dir, s.dir, s.w.path);
      }
    }
  }

  /** So a cap that is met stays met through any run whose rotating Writes return nil. */
  lemma {:induction false} RunCaps(s: World, ops: seq<Op>)
    requires Sound(s.w, s.dir) && s.w.cfg.maxBackups > 0 && |Backups(s.dir, s.w.path)| <= s.w.cfg.maxBackups
    requires RotationsSucceed(s, ops)
    ensures |Backups(Run(s, ops).dir, s.w.path)| <= s.w.cfg.maxBackups
    decreases |ops|
  {
    if ops != [] {
      StepCaps(s, ops[0]);
      RunCaps(Step(s, ops[0]), ops[1..]);
    }
  }

  // ---------------------------------------------------------------- what it reports

  // Everything the rotation of this Write attempts succeeds.
  predicate RotationSucceeds(w: Writer, dir: Dir, env: Env)
    requires IsFile(dir, w.path)
  {
    && Renames(w, dir, env) && env.freshOpen && env.list
    && forall n :: n in env.removeFails ==> !Due(Moved(w, dir, Rotate(w, dir, env).trace), w.path, w.cfg, env, n)
  }

  // The pruning after the rename attempts what is due in the directory before the fresh open.
  lemma AttemptsDue(d: Dir, path: string, cfg: Config, env: Env)
    requires OpenAppend(d, path, true, env.now).Some? && env.list
    ensures var q := Prune(OpenAppend(d, path, true, env.now).value, path, cfg, env);
            forall n :: n in q.attempted <==> Due(d, path, cfg, env, n)
  {
    var d' := OpenAppend(d, path, true, env.now).value;
    var q := Prune(d', path, cfg, env);
    SameBackups(d, path, env.now);
    assert !(path + "." <= path);
    forall n
      ensures n in q.attempted <==> Due(d, path, cfg, env, n)
    {
      assert n != path ==> SameEntry(d', d, n);
      AttemptsExactly(d', path, cfg, env, n);
    }
  }

  lemma MeetIsEmptyIff(a: set<string>, b: set<string>)
    ensures a * b == {} <==> forall n :: n in b ==> n !in a
  {
    if n :| n in b && n in a {
      assert n in a * b;
    }
  }

  lemma RotateNilIff(w: Writer, dir: Dir, env: Env)
    requires IsFile(dir, w.path)
    ensures Rotate(w, dir, env).err == {} <==> RotationSucceeds(w, dir, env)
  {
    RotateMovesIff(w, dir, env);
    if !Renames(w, dir, env) {
      RecoverErrs(w, dir, env, CloseFailed, QUIET);
      RecoverErrs(w, dir, env, RenameFailed, QUIET);
    } else {
      var d := Rename(dir, w.path, ChosenName(w, dir, env), true).value;
      BackupNameIsFresh(Prefixed(w, env), Found(dir, env));
      assert w.path !in d && d == Moved(w, dir, Rotate(w, dir, env).trace);
      if !env.freshOpen {
        RecoverErrs(w, d, env, FreshOpenFailed, Rotate(w, dir, env).trace);
      } else {
        var q := Prune(OpenAppend(d, w.path, true, env.now).value, w.path, w.cfg, env);
        NoErrorIff(q);
        if env.list {
          AttemptsDue(d, w.path, w.cfg, env);
          assert q.failed == q.attempted * env.removeFails;
          MeetIsEmptyIff(q.attempted, env.removeFails);
        }
      }
    }
  }

  lemma RecoverErrs(w: Writer, dir: Dir, env: Env, cause: Fault, trace: Trace)
    ensures cause in Recover(w, dir, env, cause, trace).err
  {
  }

  /** A Write returns nil exactly when the writer is not closed, it has or gets a live file, the
      file takes all of p, and the rotation that is needed, if any, succeeds in full. */
  lemma WriteNilIff(w: Writer, dir: Dir, p: Bytes, env: Env)
    requires Sound(w, dir)
    ensures var o := Healed(w, dir, env);
            WriteOnce(w, dir, p, env).err == {} <==>
              && !w.closed && o.err == {} && |p| <= env.accepted
              && (NeedsRotation(o.w, p) ==> RotationSucceeds(o.w, o.dir, env))
  {
    var o := Healed(w, dir, env);
    if !w.closed && o.err == {} && NeedsRotation(o.w, p) {
      RotateNilIff(o.w, o.dir, env);
      if Rotate(o.w, o.dir, env).err == {} {
        RotateEmpties(o.w, o.dir, env);
      }
    }
  }

  /** The two errors a caller can test for say exactly that: the writer is closed, or there is no
      live file and it cannot be reopened. Then nothing is written and nothing else changes. */
  lemma RefusalsIff(w: Writer, dir: Dir, p: Bytes, env: Env)
    requires Sound(w, dir)
    ensures var r := WriteOnce(w, dir, p, env);
            && (Closed in r.err <==> w.closed)
            && (Unavailable in r.err <==>
                  !w.closed && !w.open && !Opens(dir, w.path, env.healOpen))
            && (Closed in r.err || Unavailable in r.err ==> r.n == 0 && r.dir == dir && r.w == w && |r.err| == 1)
  {
    var o := Healed(w, dir, env);
    if !w.closed && o.err == {} {
      NeverRefuses(o.w, o.dir, env);
    }
  }

  lemma NeverRefuses(w: Writer, dir: Dir, env: Env)
    ensures Closed !in Rotate(w, dir, env).err && Unavailable !in Rotate(w, dir, env).err
  {
  }

  /** The number of bytes reported is what the live file took: all of p if it can, and none if
      there is no live file in the end. */
  lemma WrittenCount(w: Writer, dir: Dir, p: Bytes, env: Env)
    requires Sound(w, dir)
    ensures var r := WriteOnce(w, dir, p, env);
            && r.n == (if !w.closed && r.w.open then if env.accepted < |p| then env.accepted else |p| else 0)
            && (ShortWrite in r.err <==> !w.closed && r.w.open && env.accepted < |p|)
  {
    var o := Healed(w, dir, env);
    if !w.closed && o.err == {} && NeedsRotation(o.w, p) {
      RotateWritesNothing(o.w, o.dir, env);
      NoShortRotate(o.w, o.dir, env);
    }
  }

  lemma NoShortRotate(w: Writer, dir: Dir, env: Env)
    ensures ShortWrite !in Rotate(w, dir, env).err
  {
  }

  // The Write gets to the point of rotating.
  predicate Attempts(w: Writer, dir: Dir, p: Bytes, env: Env) {
    !w.closed && Healed(w, dir, env).err == {} && NeedsRotation(Healed(w, dir, env).w, p)
  }

  lemma RotateFaultsIff(w: Writer, dir: Dir, env: Env, n: string)
    requires IsFile(dir, w.path)
    ensures var err, moves := Rotate(w, dir, env).err, Renames(w, dir, env);
            && (CloseFailed in err <==> !env.close)
            && (RenameFailed in err <==> env.close && !moves)
            && (FreshOpenFailed in err <==> moves && !env.freshOpen)
            && (RecoveryFailed in err <==> !(moves && env.freshOpen) && !env.recoverOpen)
            && (ListFailed in err <==> moves && env.freshOpen && !env.list)
            && (RemoveFailed(n) in err <==>
                  && moves && env.freshOpen && env.list && n in env.removeFails
                  && Due(Moved(w, dir, Rotate(w, dir, env).trace), w.path, w.cfg, env, n))
  {
    RotateMovesIff(w, dir, env);
    BackupNameIsFresh(Prefixed(w, env), Found(dir, env));
    assert !(w.path + "." <= w.path);
    if Renames(w, dir, env) && env.freshOpen && env.list {
      var d := Rename(dir, w.path, ChosenName(w, dir, env), true).value;
      assert d == Moved(w, dir, Rotate(w, dir, env).trace);
      AttemptsDue(d, w.path, w.cfg, env);
    }
  }

  /** A Write joins one error for everything that failed: a rotation's close, rename or fresh
      open, the reopening of the live file after that, the listing, and each backup that was
      due and could not be removed. */
  lemma FaultsIff(w: Writer, dir: Dir, p: Bytes, env: Env, n: string)
    requires Sound(w, dir)
    ensures var o, r := Healed(w, dir, env), WriteOnce(w, dir, p, env);
            var tries := Attempts(w, dir, p, env);
            var moves := tries && r.trace.rotated.Some?;
            && (CloseFailed in r.err <==> tries && !env.close)
            && (RenameFailed in r.err <==> tries && env.close && !moves)
            && (FreshOpenFailed in r.err <==> moves && !env.freshOpen)
            && (RecoveryFailed in r.err <==> tries && !(moves && env.freshOpen) && !env.recoverOpen)
            && (ListFailed in r.err <==> moves && env.freshOpen && !env.list)
            && (moves ==> IsFile(o.dir, w.path))
            && (RemoveFailed(n) in r.err <==>
                  && moves && env.freshOpen && env.list && n in env.removeFails
                  && Due(Moved(o.w, o.dir, r.trace), w.path, w.cfg, env, n))
  {
    var o := Healed(w, dir, env);
    if Attempts(w, dir, p, env) {
      RotateMovesIff(o.w, o.dir, env);
      RotateFaultsIff(o.w, o.dir, env, n);
    }
  }

  /** Sync succeeds on a closed writer, and otherwise exactly when there is a live file that the
      operating system syncs; without one it says so. */
  lemma SyncNilIff(w: Writer, syncOk: bool)
    ensures SyncResult(w, syncOk) == {} <==> w.closed || (w.open && syncOk)
    ensures Unavailable in SyncResult(w, syncOk) <==> !w.closed && !w.open
    ensures SyncFailed in SyncResult(w, syncOk) <==> !w.closed && w.open && !syncOk
  {
  }

  lemma {:induction false} ClosedStays(s: World, ops: seq<Op>)
    requires Sound(s.w, s.dir) && s.w.closed
    ensures Run(s, ops).w.closed && Run(s, ops).dir == s.dir
    decreases |ops|
  {
    if ops != [] {
      ClosedStays(Step(s, ops[0]), ops[1..]);
    }
  }

  /** After a Close, whatever is called then, every Write is refused, Sync has nothing to do, and
      the directory stays as the Close found it. */
  lemma ClosedForGood(s: World, ops: seq<Op>, p: Bytes, env: Env, syncOk: bool)
    requires Sound(s.w, s.dir)
    ensures var r := Run(Step(s, Op.Close), ops);
            && r.dir == s.dir && SyncResult(r.w, syncOk) == {}
            && WriteOnce(r.w, r.dir, p, env).err == {Closed} && WriteOnce(r.w, r.dir, p, env).dir == s.dir
  {
    ClosedStays(Step(s, Op.Close), ops);
  }
}
