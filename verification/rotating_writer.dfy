/** The size-rotating file writer and its recovery from failures (output/rotate.go).

    A Write is a function of the writer, the directory, the bytes and the environment's
    decisions. `RotatingFile` implements it method by method on a shared disk. */
module RotatingWriter {
  import opened Wrappers
  import opened Directory
  import opened Pruning
  import opened BackupNaming

  datatype Fault =
    | Closed                // ErrRotatingFileClosed
    | Unavailable           // ErrRotatingFileUnavailable
    | CloseFailed
    | RenameFailed
    | FreshOpenFailed
    | RecoveryFailed
    | ListFailed
    | RemoveFailed(name: string)
    | ShortWrite
    | SyncFailed

  // errors.Join: no error when there is nothing to join.
  type Error = set<Fault>

  datatype Writer = Writer(cfg: Config, path: string, closed: bool, open: bool, size: int)

  // The segment a rotation moved away, and the backups a pruning removed.
  datatype Trace = Trace(rotated: Option<(string, Bytes)>, removed: set<string>)

  const QUIET := Trace(None, {})

  datatype Outcome = Outcome(w: Writer, dir: Dir, n: nat, err: Error, trace: Trace)

  /** An open live file is the file of that name: nothing else renames or removes it. */
  ghost predicate Sound(w: Writer, dir: Dir) {
    w.open && !w.closed ==> IsFile(dir, w.path)
  }

  function Prefixed(w: Writer, env: Env): string {
    w.path + "." + env.stamp
  }

  function Reopen(w: Writer, dir: Dir, openOk: bool, statOk: bool, now: int): (r: Outcome)
    ensures r.err == {} ==> r.w.open && IsFile(r.dir, w.path)
    ensures r.w.path == w.path && r.w.cfg == w.cfg && r.w.closed == w.closed
  {
    match OpenAppend(dir, w.path, openOk, now)
    case None => Outcome(w, dir, 0, {Unavailable}, QUIET)
    case Some(d) => Outcome(w.(open := true, size := if statOk then |Content(d, w.path)| else 0), d, 0, {}, QUIET)
  }

  function Recover(w: Writer, dir: Dir, env: Env, cause: Fault, trace: Trace): (r: Outcome)
    ensures r.w.open ==> IsFile(r.dir, w.path)
    ensures r.w.path == w.path && r.w.cfg == w.cfg && r.w.closed == w.closed
  {
    var r := Reopen(w.(open := false), dir, env.recoverOpen, env.recoverStat, env.now);
    r.(err := if r.err == {} then {cause} else {cause, RecoveryFailed}, trace := trace)
  }

  function PruneError(r: Pruned): Error {
    if !r.listed then {ListFailed} else set n | n in r.failed :: RemoveFailed(n)
  }

  function Rotate(w: Writer, dir: Dir, env: Env): (r: Outcome)
    ensures r.w.open ==> IsFile(r.dir, w.path)
    ensures r.w.path == w.path && r.w.cfg == w.cfg && r.w.closed == w.closed
  {
    if !env.close then Recover(w, dir, env, CloseFailed, QUIET)
    else
      var backup := ChosenName(w, dir, env);
      match Rename(dir, w.path, backup, env.rename)
      case None => Recover(w, dir, env, RenameFailed, QUIET)
      case Some(d) => AfterRename(w, d, env, (backup, Content(dir, w.path)))
  }

  function AfterRename(w: Writer, d: Dir, env: Env, moved: (string, Bytes)): (r: Outcome)
    ensures r.w.open ==> IsFile(r.dir, w.path)
    ensures r.w.path == w.path && r.w.cfg == w.cfg && r.w.closed == w.closed
  {
    match OpenAppend(d, w.path, env.freshOpen, env.now)
    case None => Recover(w, d, env, FreshOpenFailed, Trace(Some(moved), {}))
    case Some(d') =>
      var r := Prune(d', w.path, w.cfg, env);
      PruneFrame(d', w.path, w.cfg, env);
      Outcome(w.(open := true, size := 0), r.dir, 0, PruneError(r), Trace(Some(moved), r.attempted - r.failed))
  }

  function Accepts(p: Bytes, env: Env): nat {
    if env.accepted < |p| then env.accepted else |p|
  }

  // os.File.Write: appends a prefix, and errs when it is not all of p.
  function Land(r: Outcome, p: Bytes, env: Env): Outcome
    requires IsFile(r.dir, r.w.path)
  {
    var n := Accepts(p, env);
    r.(w := r.w.(size := r.w.size + n), dir := Append(r.dir, r.w.path, p[..n], env.now),
       n := n, err := r.err + if n < |p| then {ShortWrite} else {})
  }

  // p would push a file that is not empty past the threshold.
  predicate NeedsRotation(w: Writer, p: Bytes) {
    w.size > 0 && w.size + |p| > w.cfg.maxSizeBytes
  }

  // The name a rotation tries, and whether it gets the live file renamed to it.
  function ChosenName(w: Writer, dir: Dir, env: Env): string {
    BackupName(Prefixed(w, env), Found(dir, env))
  }

  predicate Renames(w: Writer, dir: Dir, env: Env) {
    env.close && Rename(dir, w.path, ChosenName(w, dir, env), env.rename).Some?
  }

  // A Write that has a live file: rotate first if p would push it past the threshold.
  function WriteLive(o: Outcome, p: Bytes, env: Env): (r: Outcome)
    requires IsFile(o.dir, o.w.path)
    ensures r.w.open && o.w.open ==> IsFile(r.dir, r.w.path)
    ensures r.w.path == o.w.path && r.w.cfg == o.w.cfg && r.w.closed == o.w.closed
  {
    if NeedsRotation(o.w, p) then
      var r := Rotate(o.w, o.dir, env);
      if r.w.open then Land(r, p, env) else r
    else Land(o, p, env)
  }

  // A Write first reopens the live file if there is none.
  function Healed(w: Writer, dir: Dir, env: Env): Outcome {
    if w.open then Outcome(w, dir, 0, {}, QUIET) else Reopen(w, dir, env.healOpen, env.healStat, env.now)
  }

  function WriteOnce(w: Writer, dir: Dir, p: Bytes, env: Env): (r: Outcome)
    requires Sound(w, dir)
    ensures Sound(r.w, r.dir)
    ensures r.w.path == w.path && r.w.cfg == w.cfg && r.w.closed == w.closed
  {
    if w.closed then Outcome(w, dir, 0, {Closed}, QUIET)
    else
      var o := Healed(w, dir, env);
      if o.err != {} then o else WriteLive(o, p, env)
  }

  /** Sync reads the writer only. */
  function SyncResult(w: Writer, syncOk: bool): Error {
    if w.closed then {} else if !w.open then {Unavailable} else if syncOk then {} else {SyncFailed}
  }

  function Shut(w: Writer): Writer {
    w.(closed := true)
  }

  /** The factory: a positive threshold, a parent directory, and the size of a file that is
      already there, unless its Stat fails. */
  function Make(cfg: Config, path: string, dir: Dir, mkdirOk: bool, statOk: bool, openOk: bool, now: int)
    : Option<(Writer, Dir)>
  {
    if path == "" || cfg.maxSizeBytes <= 0 || !mkdirOk then None
    else match OpenAppend(dir, path, openOk, now)
         case None => None
         case Some(d) => Some((Writer(cfg, path, false, true, if statOk then |Content(dir, path)| else 0), d))
  }

  // ---------------------------------------------------------------- the implementation

  class Disk {
    var dir: Dir
  }

  class RotatingFile {
    const cfg: Config
    const path: string
    const disk: Disk
    var closed: bool
    var file: bool      // whether there is an open live file
    var size: int
    ghost var trace: Trace

    ghost function View(): Writer
      reads this
    {
      Writer(cfg, path, closed, file, size)
    }

    ghost function State(n: nat, err: Error): Outcome
      reads this, disk
    {
      Outcome(View(), disk.dir, n, err, trace)
    }

    constructor (cfg: Config, path: string, disk: Disk, w: Writer)
      requires w.cfg == cfg && w.path == path
      ensures this.disk == disk && View() == w
    {
      this.cfg, this.path, this.disk := cfg, path, disk;
      closed, file, size := w.closed, w.open, w.size;
      trace := QUIET;
    }

    method OpenLogFile(ok: bool, now: int) returns (available: bool)
      modifies disk
      ensures available == OpenAppend(old(disk.dir), path, ok, now).Some?
      ensures disk.dir == if available then OpenAppend(old(disk.dir), path, ok, now).value else old(disk.dir)
    {
      if !ok || (path in disk.dir && disk.dir[path].Folder?) {
        return false;
      }
      if path !in disk.dir {
        disk.dir := disk.dir[path := File("", now)];
      }
      return true;
    }

    method ReopenLiveFile(openOk: bool, statOk: bool, now: int) returns (err: Error)
      modifies this, disk
      ensures State(0, err) == Reopen(old(View()), old(disk.dir), openOk, statOk, now).(trace := old(trace))
    {
      var available := OpenLogFile(openOk, now);
      if !available {
        return {Unavailable};
      }
      file := true;
      size := 0;
      if statOk {
        size := |Content(disk.dir, path)|;
      }
      return {};
    }

    method RecoverLiveFile(env: Env, cause: Fault) returns (err: Error)
      modifies this, disk
      ensures State(0, err) == Recover(old(View()), old(disk.dir), env, cause, old(trace))
    {
      file := false;
      err := ReopenLiveFile(env.recoverOpen, env.recoverStat, env.now);
      if err != {} {
        return {cause, RecoveryFailed};
      }
      return {cause};
    }

    method DoRotate(env: Env) returns (err: Error)
      requires trace == QUIET
      modifies this, disk
      ensures State(0, err) == Rotate(old(View()), old(disk.dir), env)
    {
      if !env.close {
        err := RecoverLiveFile(env, CloseFailed);
        return;
      }
      var backup := BackupPath(path + "." + env.stamp, disk.dir.Keys - env.lstatFails);
      var renamed := Rename(disk.dir, path, backup, env.rename);
      if renamed.None? {
        err := RecoverLiveFile(env, RenameFailed);
        return;
      }
      trace := Trace(Some((backup, Content(disk.dir, path))), {});
      disk.dir := renamed.value;
      var available := OpenLogFile(env.freshOpen, env.now);
      if !available {
        err := RecoverLiveFile(env, FreshOpenFailed);
        return;
      }
      file := true;
      size := 0;
      var pruned := PruneBackups(disk.dir, path, cfg, env);
      disk.dir := pruned.dir;
      trace := trace.(removed := pruned.attempted - pruned.failed);
      err := PruneError(pruned);
    }

    method Append(p: Bytes, env: Env) returns (n: nat, err: Error)
      requires IsFile(disk.dir, path)
      modifies this, disk
      ensures forall e: Error :: State(n, e + err) == Land(old(State(0, e)), p, env)
    {
      n := if env.accepted < |p| then env.accepted else |p|;
      disk.dir := disk.dir[path := File(disk.dir[path].bytes + p[..n], env.now)];
      size := size + n;
      err := if n < |p| then {ShortWrite} else {};
    }

    method Write(p: Bytes, env: Env) returns (n: nat, err: Error)
      requires Sound(View(), disk.dir)
      modifies this, disk
      ensures State(n, err) == WriteOnce(old(View()), old(disk.dir), p, env)
      ensures Sound(View(), disk.dir)
    {
      trace := QUIET;
      if closed {
        return 0, {Closed};
      }
      if !file {
        err := ReopenLiveFile(env.healOpen, env.healStat, env.now);
        if err != {} {
          return 0, err;
        }
      }
      n, err := WriteHealed(p, env);
    }

    // Write once there is a live file.
    method WriteHealed(p: Bytes, env: Env) returns (n: nat, err: Error)
      requires IsFile(disk.dir, path) && file && trace == QUIET
      modifies this, disk
      ensures State(n, err) == WriteLive(old(State(0, {})), p, env)
    {
      if size > 0 && size + |p| > cfg.maxSizeBytes {
        var rotateErr := DoRotate(env);
        if rotateErr != {} {
          if !file {
            return 0, rotateErr;
          }
          n, err := Append(p, env);
          err := rotateErr + err;
          return;
        }
      }
      n, err := Append(p, env);
    }

    method Sync(syncOk: bool) returns (err: Error)
      ensures err == SyncResult(View(), syncOk)
    {
      if closed {
        return {};
      }
      if !file {
        return {Unavailable};
      }
      if !syncOk {
        return {SyncFailed};
      }
      return {};
    }

    /** Idempotent: only the first Close can fail, and only with a live file. */
    method Close(closeOk: bool) returns (err: Error)
      modifies this
      ensures View() == Shut(old(View())) && disk.dir == old(disk.dir)
      ensures err == if old(closed) || !file || closeOk then {} else {CloseFailed}
    {
      if closed {
        return {};
      }
      closed := true;
      if !file {
        return {};
      }
      if !closeOk {
        return {CloseFailed};
      }
      return {};
    }
  }
}
