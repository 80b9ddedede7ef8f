/** The directory a rotating file lives in, and the operating-system calls the writer makes
    (output/rotate.go). A call succeeds or fails as the environment says; what it does when
    it succeeds is fixed here. Nothing else touches the directory. */
module Directory {
  import opened Wrappers

  type Bytes = string

  datatype Node = File(bytes: Bytes, mtime: int) | Folder

  type Dir = map<string, Node>

  /** What the environment decides during one Write. `lstatFails` and `statFails` are names
      that are present but cannot be inspected, `removeFails` names that cannot be removed;
      `stamp` is the formatted clock, `now` the clock in nanoseconds, `accepted` how many
      bytes the file takes. */
  datatype Env = Env(
    healOpen: bool, healStat: bool,
    close: bool, rename: bool, freshOpen: bool,
    recoverOpen: bool, recoverStat: bool,
    list: bool,
    lstatFails: set<string>, statFails: set<string>, removeFails: set<string>,
    stamp: string, now: int, accepted: nat)

  predicate IsFile(dir: Dir, name: string) {
    name in dir && dir[name].File?
  }

  /** The bytes of the named file, none if there is no such file. */
  function Content(dir: Dir, name: string): Bytes {
    if IsFile(dir, name) then dir[name].bytes else ""
  }

  /** os.OpenFile with O_APPEND|O_CREATE|O_WRONLY. */
  function OpenAppend(dir: Dir, name: string, ok: bool, now: int): Option<Dir> {
    if !ok || (name in dir && dir[name].Folder?) then None
    else if name in dir then Some(dir)
    else Some(dir[name := File("", now)])
  }

  /** os.Rename of a file: atomic, replaces a file of the target name, fails on a folder. */
  function Rename(dir: Dir, from: string, to: string, ok: bool): Option<Dir> {
    if !ok || !IsFile(dir, from) || (to in dir && dir[to].Folder?) then None
    else Some((dir - {from})[to := dir[from]])
  }

  function Append(dir: Dir, name: string, p: Bytes, now: int): Dir
    requires IsFile(dir, name)
  {
    dir[name := File(dir[name].bytes + p, now)]
  }

  // The names os.Lstat finds; any other outcome frees a candidate.
  function Found(dir: Dir, env: Env): set<string> {
    dir.Keys - env.lstatFails
  }
}
