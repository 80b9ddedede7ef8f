/** Removing old backups (output/rotate.go, prune). */
module Pruning {
  import opened Directory
  import BackupNaming

  datatype Config = Config(maxSizeBytes: int, maxBackups: int, maxAgeDays: int)

  // ---------------------------------------------------------------- names

  /** Byte-wise lexicographic order, as slices.Sort compares strings. */
  predicate Less(a: string, b: string) {
    if b == [] then false
    else if a == [] then true
    else a[0] < b[0] || (a[0] == b[0] && Less(a[1..], b[1..]))
  }

  lemma {:induction false} LessTransitive(a: string, b: string, c: string)
    requires Less(a, b) && Less(b, c)
    ensures Less(a, c)
  {
    if a != [] && a[0] == b[0] && b[0] == c[0] {
      LessTransitive(a[1..], b[1..], c[1..]);
    }
  }

  lemma {:induction false} LessTotal(a: string, b: string)
    ensures a != b ==> Less(a, b) || Less(b, a)
    ensures !(Less(a, b) && Less(b, a)) && !Less(a, a)
  {
    if a != [] && b != [] {
      LessTotal(a[1..], b[1..]);
      if a != b && a[0] == b[0] {
        assert a == [a[0]] + a[1..] && b == [b[0]] + b[1..];
      }
    }
    if a != [] {
      LessTotal(a[1..], a[1..]);
    }
  }

  /** Any file named `<path>.*` is a backup. */
  function Backups(dir: Dir, path: string): set<string> {
    set n | n in dir && dir[n].File? && path + "." <= n
  }

  // How many backups are newer by name.
  function Rank(names: set<string>, n: string): nat {
    |set x | x in names && Less(n, x)|
  }

  // ---------------------------------------------------------------- ages

  const HOUR: int := 3_600_000_000_000

  const DAY: int := 24 * HOUR

  /** A time.Duration is a 64-bit integer: products wrap. */
  function Wrap64(x: int): int {
    (x + 0x8000_0000_0000_0000) % 0x1_0000_0000_0000_0000 - 0x8000_0000_0000_0000
  }

  function Cutoff(now: int, days: int): int {
    now + Wrap64(Wrap64(Wrap64(-days) * 24) * HOUR)
  }

  /** The cutoff is `days` days ago exactly up to 106751 days; from there the product wraps
      around, for 106752 days to a moment in the future. */
  lemma CutoffExact(now: int, days: int)
    requires 0 <= days < 0x8000_0000_0000_0000
    ensures Cutoff(now, days) == now - days * DAY <==> days <= 106751
    ensures Cutoff(now, 106752) > now
  {
    assert Wrap64(-days) == -days;
    if days <= 106751 {
      assert Wrap64(-days * 24) == -days * 24;
    }
  }

  // ---------------------------------------------------------------- what is removed

  /** The backups beyond the count. */
  function Surplus(dir: Dir, path: string, cfg: Config): set<string> {
    var names := Backups(dir, path);
    if cfg.maxBackups > 0 then set n | n in names && Rank(names, n) >= cfg.maxBackups else {}
  }

  /** The retained backups that can be inspected and are too old. */
  function Expired(dir: Dir, path: string, cfg: Config, env: Env): set<string> {
    if cfg.maxAgeDays > 0 then
      TooOld(dir, env, Cutoff(env.now, cfg.maxAgeDays), Backups(dir, path) - Surplus(dir, path, cfg))
    else {}
  }

  function TooOld(dir: Dir, env: Env, cutoff: int, names: set<string>): set<string> {
    set n | n in names && IsFile(dir, n) && n !in env.statFails && dir[n].mtime < cutoff
  }

  datatype Pruned = Pruned(dir: Dir, attempted: set<string>, failed: set<string>, listed: bool)

  function Prune(dir: Dir, path: string, cfg: Config, env: Env): Pruned {
    if !env.list then Pruned(dir, {}, {}, false)
    else
      var attempted := Surplus(dir, path, cfg) + Expired(dir, path, cfg, env);
      var failed := attempted * env.removeFails;
      Pruned(dir - (attempted - failed), attempted, failed, true)
  }

  // errors.Join of the collected errors is nil.
  predicate Clean(r: Pruned) {
    r.listed && r.failed == {}
  }

  // ---------------------------------------------------------------- newest first

  predicate Descending(s: seq<string>) {
    forall i, j :: 0 <= i < j < |s| ==> Less(s[j], s[i])
  }

  function Elements(s: seq<string>): set<string> {
    set x | x in s
  }

  lemma {:induction false} DistinctSize(s: seq<string>)
    requires Descending(s)
    ensures |Elements(s)| == |s|
  {
    if s != [] {
      var n := |s| - 1;
      DistinctSize(s[..n]);
      forall i | 0 <= i < n
        ensures s[i] != s[n]
      {
        LessTotal(s[i], s[n]);
        LessTotal(s[n], s[n]);
      }
      assert Elements(s) == Elements(s[..n]) + {s[n]};
    }
  }

  /** In the newest-first list, a name's index is its rank. */
  lemma IndexIsRank(s: seq<string>, i: nat)
    requires Descending(s) && i < |s|
    ensures Rank(Elements(s), s[i]) == i
  {
    var newer := set x | x in Elements(s) && Less(s[i], x);
    forall x
      ensures x in newer <==> x in Elements(s[..i])
    {
      if x in Elements(s) {
        var j :| 0 <= j < |s| && s[j] == x;
        LessTotal(s[i], x);
        if j >= i {
          assert !Less(s[i], x);
        }
      }
    }
    assert newer == Elements(s[..i]);
    DistinctSize(s[..i]);
  }

  // Where a new name goes in a newest-first list.
  method InsertDescending(s: seq<string>, n: string) returns (r: seq<string>)
    requires Descending(s) && n !in s
    ensures Descending(r) && Elements(r) == Elements(s) + {n} && |r| == |s| + 1
  {
    var i := 0;
    while i < |s| && Less(n, s[i])
      invariant 0 <= i <= |s|
      invariant forall j :: 0 <= j < i ==> Less(n, s[j])
    {
      i := i + 1;
    }
    r := s[..i] + [n] + s[i..];
    assert s == s[..i] + s[i..];
    if i < |s| {
      LessTotal(n, s[i]);
      forall j | i <= j < |s|
        ensures Less(s[j], n)
      {
        if j > i {
          LessTransitive(s[j], s[i], n);
        }
      }
    }
  }

  /** The listing loop with the sort and the reversal: the backups, newest first. */
  method ListBackups(dir: Dir, path: string) returns (backups: seq<string>)
    ensures Descending(backups) && Elements(backups) == Backups(dir, path)
  {
    backups := [];
    var entries := dir.Keys;
    while entries != {}
      invariant entries <= dir.Keys
      invariant Descending(backups)
      invariant Elements(backups) == Backups(dir, path) - entries
      decreases entries
    {
      var name :| name in entries;
      if dir[name].File? && path + "." <= name {
        backups := InsertDescending(backups, name);
      }
      entries := entries - {name};
    }
  }

  lemma SplitAtCount(dir: Dir, path: string, cfg: Config, backups: seq<string>)
    requires Descending(backups) && Elements(backups) == Backups(dir, path) && 0 < cfg.maxBackups < |backups|
    ensures Elements(backups[cfg.maxBackups..]) == Surplus(dir, path, cfg)
    ensures Elements(backups[..cfg.maxBackups]) == Backups(dir, path) - Surplus(dir, path, cfg)
  {
    var k := cfg.maxBackups;
    forall i | 0 <= i < |backups|
      ensures backups[i] in Surplus(dir, path, cfg) <==> i >= k
    {
      IndexIsRank(backups, i);
    }
    forall x
      ensures x in Surplus(dir, path, cfg) <==> x in backups[k..]
      ensures x in Backups(dir, path) - Surplus(dir, path, cfg) <==> x in backups[..k]
    {
      if x in Elements(backups) {
        var i :| 0 <= i < |backups| && backups[i] == x;
        if i < k {
          assert backups[..k][i] == x;
        } else {
          assert backups[k..][i - k] == x;
        }
      }
    }
  }

  lemma NoSurplus(dir: Dir, path: string, cfg: Config, backups: seq<string>)
    requires Descending(backups) && Elements(backups) == Backups(dir, path)
    requires cfg.maxBackups <= 0 || |backups| <= cfg.maxBackups
    ensures Surplus(dir, path, cfg) == {}
  {
    forall i | 0 <= i < |backups|
      ensures backups[i] !in Surplus(dir, path, cfg)
    {
      IndexIsRank(backups, i);
    }
    forall x | x in Backups(dir, path)
      ensures x !in Surplus(dir, path, cfg)
    {
      assert x in Elements(backups);
      var i :| 0 <= i < |backups| && backups[i] == x;
    }
  }

  // The directory so far, the names removal was attempted for, and those it failed for.
  datatype Sweep = Sweep(left: Dir, attempted: set<string>, failed: set<string>)

  ghost predicate Swept(dir: Dir, env: Env, w: Sweep) {
    w.failed == w.attempted * env.removeFails && w.left == dir - (w.attempted - w.failed)
  }

  method Remove(ghost dir: Dir, env: Env, w: Sweep, name: string) returns (w': Sweep)
    requires Swept(dir, env, w)
    ensures Swept(dir, env, w') && w'.attempted == w.attempted + {name}
  {
    if name in env.removeFails {
      w' := w.(attempted := w.attempted + {name}, failed := w.failed + {name});
    } else {
      w' := w.(attempted := w.attempted + {name}, left := w.left - {name});
    }
  }

  // The loop over the backups beyond the count.
  method PruneByCount(dir: Dir, env: Env, surplus: seq<string>) returns (w: Sweep)
    ensures Swept(dir, env, w) && w.attempted == Elements(surplus)
  {
    w := Sweep(dir, {}, {});
    for i := 0 to |surplus|
      invariant Swept(dir, env, w) && w.attempted == Elements(surplus[..i])
    {
      assert surplus[..i + 1] == surplus[..i] + [surplus[i]];
      w := Remove(dir, env, w, surplus[i]);
    }
    assert surplus[..|surplus|] == surplus;
  }

  // The loop over the retained backups.
  method PruneByAge(dir: Dir, env: Env, before: Sweep, backups: seq<string>, cutoff: int) returns (w: Sweep)
    requires Swept(dir, env, before)
    requires forall n :: n in Elements(backups) ==> IsFile(dir, n)
    ensures Swept(dir, env, w)
    ensures w.attempted == before.attempted + TooOld(dir, env, cutoff, Elements(backups))
  {
    w := before;
    for i := 0 to |backups|
      invariant Swept(dir, env, w)
      invariant w.attempted == before.attempted + TooOld(dir, env, cutoff, Elements(backups[..i]))
    {
      assert backups[..i + 1] == backups[..i] + [backups[i]];
      assert backups[i] in Elements(backups);
      assert Elements(backups[..i + 1]) == Elements(backups[..i]) + {backups[i]};
      if backups[i] !in env.statFails && dir[backups[i]].mtime < cutoff {
        w := Remove(dir, env, w, backups[i]);
      }
    }
    assert backups[..|backups|] == backups;
  }

  /** prune, loop by loop. */
  method PruneBackups(dir: Dir, path: string, cfg: Config, env: Env) returns (r: Pruned)
    ensures r == Prune(dir, path, cfg, env)
  {
    if !env.list {
      return Pruned(dir, {}, {}, false);
    }
    var backups := ListBackups(dir, path);
    var surplus: seq<string> := [];
    if cfg.maxBackups > 0 && |backups| > cfg.maxBackups {
      SplitAtCount(dir, path, cfg, backups);
      surplus := backups[cfg.maxBackups..];
      backups := backups[..cfg.maxBackups];
    } else {
      NoSurplus(dir, path, cfg, backups);
    }
    var w := PruneByCount(dir, env, surplus);
    if cfg.maxAgeDays > 0 {
      w := PruneByAge(dir, env, w, backups, Cutoff(env.now, cfg.maxAgeDays));
    }
    r := Pruned(w.left, w.attempted, w.failed, true);
  }

  // ---------------------------------------------------------------- what it guarantees

  /** prune attempts to remove exactly the backups beyond the newest MaxBackups by name,
      and the other inspectable backups older than the cutoff. */
  lemma AttemptsExactly(dir: Dir, path: string, cfg: Config, env: Env, n: string)
    requires env.list
    ensures n in Prune(dir, path, cfg, env).attempted <==>
              && n in dir && dir[n].File? && path + "." <= n
              && ( || (cfg.maxBackups > 0 && Rank(Backups(dir, path), n) >= cfg.maxBackups)
                   || (cfg.maxAgeDays > 0 && n !in env.statFails && dir[n].mtime < Cutoff(env.now, cfg.maxAgeDays)))
  {
  }

  /** It changes no surviving entry, never touches the live file or anything that is not a
      backup, and what it attempted to remove is gone unless the removal failed. */
  lemma PruneFrame(dir: Dir, path: string, cfg: Config, env: Env)
    ensures var r := Prune(dir, path, cfg, env);
            && (forall n :: n in r.dir ==> n in dir && r.dir[n] == dir[n])
            && (forall n :: n in dir && n !in Backups(dir, path) ==> n in r.dir)
            && path !in Backups(dir, path)
            && (forall n :: n in dir && n !in r.dir ==> n in r.attempted && n !in env.removeFails)
  {
    assert !(path + "." <= path);
  }

  lemma {:induction false} OldestExists(names: set<string>) returns (m: string)
    requires names != {}
    ensures m in names && forall x :: x in names && x != m ==> Less(m, x)
  {
    var first :| first in names;
    var rest := names - {first};
    if rest == {} {
      assert forall x :: x in names && x != first ==> x in rest;
      return first;
    }
    var r := OldestExists(rest);
    LessTotal(first, r);
    m := if Less(r, first) then r else first;
    forall x | x in names && x != m
      ensures Less(m, x)
    {
      if x != first && x != r {
        assert x in rest;
        if m == first {
          LessTransitive(first, r, x);
        }
      }
    }
  }

  /** When prune reports no error and a cap is set, at most MaxBackups backups remain. */
  lemma CapIsMet(dir: Dir, path: string, cfg: Config, env: Env)
    requires cfg.maxBackups > 0 && Clean(Prune(dir, path, cfg, env))
    ensures |Backups(Prune(dir, path, cfg, env).dir, path)| <= cfg.maxBackups
  {
    var names, kept := Backups(dir, path), Backups(Prune(dir, path, cfg, env).dir, path);
    assert forall n :: n in kept ==> n in names && Rank(names, n) < cfg.maxBackups;
    if kept != {} {
      var m := OldestExists(kept);
      BackupNaming.SubsetSize(kept - {m}, set x | x in names && Less(m, x));
    }
  }
}
