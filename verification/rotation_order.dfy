/** Whether "newest first" holds of backups that are sorted by name (output/rotate.go, prune):
    when the names given to rotated segments ascend in the order of the rotations. */
module RotationOrder {
  import opened Wrappers
  import opened Directory
  import opened Pruning
  import opened BackupNaming
  import opened RotatingWriter
  import opened RotationTheorems
  import Decimal

  /** A segment that was rotated later has the greater name. */
  predicate Ascending(h: Segments) {
    forall i, j :: 0 <= i < j < |h| && h[i].kept && h[j].kept ==> Less(h[i].name, h[j].name)
  }

  // What a pruning with a cap of k would remove.
  function Beyond(dir: Dir, path: string, k: nat): set<string> {
    Surplus(dir, path, Config(1, k, 0))
  }

  /** With a cap of k a segment is removed only if all earlier ones are. */
  predicate KeepsRecent(h: Segments, dir: Dir, path: string, k: nat) {
    forall i, j :: 0 <= i < j < |h| && h[i].kept && h[j].kept && h[j].name in Beyond(dir, path, k) ==>
      h[i].name in Beyond(dir, path, k)
  }

  lemma RankOrder(names: set<string>, a: string, b: string)
    requires b in names && Less(a, b)
    ensures Rank(names, b) < Rank(names, a)
  {
    var above := set x | x in names && Less(b, x);
    forall x | x in above
      ensures Less(a, x)
    {
      LessTransitive(a, b, x);
    }
    LessTotal(b, b);
    SubsetSize(above + {b}, set x | x in names && Less(a, x));
  }

  lemma AscendingKeepsRecent(h: Segments, dir: Dir, path: string, k: nat)
    requires Faithful(h, dir, path) && Ascending(h) && k > 0
    ensures KeepsRecent(h, dir, path, k)
  {
    forall i, j | 0 <= i < j < |h| && h[i].kept && h[j].kept && h[j].name in Beyond(dir, path, k)
      ensures h[i].name in Beyond(dir, path, k)
    {
      RankOrder(Backups(dir, path), h[i].name, h[j].name);
    }
  }

  // Two segments out of order: the cap that just removes the later one keeps the earlier.
  lemma DisorderLosesRecent(h: Segments, dir: Dir, path: string, i: nat, j: nat)
    requires Faithful(h, dir, path) && i < j < |h| && h[i].kept && h[j].kept && !Less(h[i].name, h[j].name)
    ensures exists k: nat :: k > 0 && !KeepsRecent(h, dir, path, k)
  {
    var names := Backups(dir, path);
    LessTotal(h[i].name, h[j].name);
    RankOrder(names, h[j].name, h[i].name);
    var k := Rank(names, h[j].name);
    assert h[j].name in Beyond(dir, path, k) && h[i].name !in Beyond(dir, path, k);
    assert !KeepsRecent(h, dir, path, k);
  }

  /** Pruning by count keeps the most recently rotated segments, whatever the cap, exactly
      when their names ascend. */
  lemma KeepsRecentIff(h: Segments, dir: Dir, path: string)
    requires Faithful(h, dir, path)
    ensures (forall k: nat :: k > 0 ==> KeepsRecent(h, dir, path, k)) <==> Ascending(h)
  {
    if Ascending(h) {
      forall k: nat | k > 0
        ensures KeepsRecent(h, dir, path, k)
      {
        AscendingKeepsRecent(h, dir, path, k);
      }
    } else {
      var i, j :| 0 <= i < j < |h| && h[i].kept && h[j].kept && !Less(h[i].name, h[j].name);
      DisorderLosesRecent(h, dir, path, i, j);
    }
  }

  // ---------------------------------------------------------------- one rotation

  predicate GreaterThanKept(h: Segments, name: string) {
    forall i :: 0 <= i < |h| && h[i].kept ==> Less(h[i].name, name)
  }

  /** In a rotation that gets as far as pruning, the pruning keeps the most recent segments,
      the one just moved included, whatever the cap, exactly when the name chosen is greater
      than those of all kept segments. */
  lemma RotationKeepsRecentIff(h: Segments, w: Writer, dir: Dir, env: Env)
    requires Faithful(h, dir, w.path) && Ascending(h) && IsFile(dir, w.path) && Renames(w, dir, env) && env.freshOpen
    requires !NameKept(h, ChosenName(w, dir, env))
    ensures var name := ChosenName(w, dir, env);
            var d := Rename(dir, w.path, name, true).value;
            var g := h + [Segment(name, Content(dir, w.path), true)];
            && OpenAppend(d, w.path, true, env.now).Some?
            && ((forall k: nat :: k > 0 ==> KeepsRecent(g, OpenAppend(d, w.path, true, env.now).value, w.path, k))
                  <==> GreaterThanKept(h, name))
  {
    var name := ChosenName(w, dir, env);
    var d := Rename(dir, w.path, name, true).value;
    var g := h + [Segment(name, Content(dir, w.path), true)];
    BackupNameIsFresh(Prefixed(w, env), Found(dir, env));
    assert !(w.path + "." <= w.path);
    RenameKeepsIff(h, dir, w.path, name);
    OpenKeeps(g, d, w.path, true, env.now);
    KeepsRecentIff(g, OpenAppend(d, w.path, true, env.now).value, w.path);
    GrownAscends(h, Segment(name, Content(dir, w.path), true));
  }

  lemma GrownAscends(h: Segments, s: Segment)
    requires Ascending(h) && s.kept
    ensures Ascending(h + [s]) <==> GreaterThanKept(h, s.name)
  {
    var g := h + [s];
    if Ascending(g) {
      forall i | 0 <= i < |h| && h[i].kept
        ensures Less(h[i].name, s.name)
      {
        assert g[i] == h[i] && g[|h|] == s;
      }
    }
  }

  // ---------------------------------------------------------------- one stamp

  lemma {:induction false} LessAfter(p: string, a: string, b: string)
    requires Less(a, b)
    ensures Less(p + a, p + b)
  {
    if p == [] {
      assert p + a == a && p + b == b;
    } else {
      LessAfter(p[1..], a, b);
      assert (p + a)[1..] == p[1..] + a && (p + b)[1..] == p[1..] + b;
    }
  }

  lemma CandidateTail(base: string, i: nat)
    ensures Candidate(base, i) == base + if i == 0 then "" else "-" + Decimal.Print(i)
  {
    if i == 0 {
      assert base + "" == base;
    }
  }

  lemma DigitsAscend(i: nat, j: nat)
    requires 0 < i < j <= 9
    ensures Less("-" + Decimal.Print(i), "-" + Decimal.Print(j))
  {
    LessAfter("-", Decimal.Print(i), Decimal.Print(j));
  }

  lemma TenIsLess()
    ensures !Less("-" + Decimal.Print(2), "-" + Decimal.Print(10))
  {
    assert Decimal.Print(10) == [Decimal.Digit(1)] + [Decimal.Digit(0)];
    LessAfter("-", Decimal.Print(10), Decimal.Print(2));
    LessTotal("-" + Decimal.Print(2), "-" + Decimal.Print(10));
  }

  /** The names tried under one stamp ascend up to the suffix -9: -10 sorts before -2. */
  lemma CandidatesAscendIff(base: string, n: nat)
    ensures (forall i: nat, j: nat :: i < j <= n ==> Less(Candidate(base, i), Candidate(base, j))) <==> n <= 9
  {
    if n <= 9 {
      forall i: nat, j: nat | i < j <= n
        ensures Less(Candidate(base, i), Candidate(base, j))
      {
        CandidateTail(base, i);
        CandidateTail(base, j);
        if i > 0 {
          DigitsAscend(i, j);
          LessAfter(base, "-" + Decimal.Print(i), "-" + Decimal.Print(j));
        } else {
          LessAfter(base, "", "-" + Decimal.Print(j));
        }
      }
    } else {
      TenIsLess();
      LessTotal("-" + Decimal.Print(2), "-" + Decimal.Print(10));
      Decimal.ValueOfPrint(2);
      Decimal.ValueOfPrint(10);
      CandidateTail(base, 2);
      CandidateTail(base, 10);
      LessAfter(base, "-" + Decimal.Print(10), "-" + Decimal.Print(2));
      LessTotal(Candidate(base, 2), Candidate(base, 10));
    }
  }

  /** Nor do they once pruning has freed the stamp's first name while a later one is kept: the
      next rotation under the stamp takes the first name again. */
  lemma FreedNameIsSmaller(h: Segments, w: Writer, dir: Dir, env: Env)
    requires Prefixed(w, env) !in Found(dir, env) && NameKept(h, Candidate(Prefixed(w, env), 1))
    ensures ChosenName(w, dir, env) == Prefixed(w, env) && !GreaterThanKept(h, ChosenName(w, dir, env))
  {
    var base := Prefixed(w, env);
    CandidateTail(base, 0);
    CandidatesAscendIff(base, 1);
    LessTotal(base, Candidate(base, 1));
    var i :| 0 <= i < |h| && h[i].kept && h[i].name == Candidate(base, 1);
  }

  // ---------------------------------------------------------------- later stamps

  // The stamp in a backup's name, when stamps have width n.
  function StampIn(path: string, name: string, n: nat): string {
    if |path| + 1 + n <= |name| then name[|path| + 1..|path| + 1 + n] else ""
  }

  // Every kept segment was given an earlier stamp.
  predicate StampedBefore(h: Segments, path: string, stamp: string) {
    forall i :: 0 <= i < |h| && h[i].kept ==>
      path + "." <= h[i].name && |path| + 1 + |stamp| <= |h[i].name|
      && Less(StampIn(path, h[i].name, |stamp|), stamp)
  }

  lemma {:induction false} LessThenAnything(a: string, b: string, x: string, y: string)
    requires |a| == |b| && Less(a, b)
    ensures Less(a + x, b + y)
  {
    assert (a + x)[0] == a[0] && (b + y)[0] == b[0];
    if a[0] == b[0] {
      LessThenAnything(a[1..], b[1..], x, y);
      assert (a + x)[1..] == a[1..] + x && (b + y)[1..] == b[1..] + y;
    }
  }

  lemma SplitName(path: string, name: string, n: nat)
    requires path + "." <= name && |path| + 1 + n <= |name|
    ensures name == (path + ".") + (StampIn(path, name, n) + name[|path| + 1 + n..])
  {
  }

  lemma LaterNameGreater(path: string, a: string, b: string, n: nat)
    requires path + "." <= a && path + "." <= b && |path| + 1 + n <= |a| && |path| + 1 + n <= |b|
    requires Less(StampIn(path, a, n), StampIn(path, b, n))
    ensures Less(a, b)
  {
    SplitName(path, a, n);
    SplitName(path, b, n);
    LessThenAnything(StampIn(path, a, n), StampIn(path, b, n), a[|path| + 1 + n..], b[|path| + 1 + n..]);
    LessAfter(path + ".", StampIn(path, a, n) + a[|path| + 1 + n..], StampIn(path, b, n) + b[|path| + 1 + n..]);
  }

  lemma ChosenStamp(w: Writer, dir: Dir, env: Env)
    ensures var name := ChosenName(w, dir, env);
            && w.path + "." <= name && |w.path| + 1 + |env.stamp| <= |name|
            && StampIn(w.path, name, |env.stamp|) == env.stamp
  {
    BackupNameIsFresh(Prefixed(w, env), Found(dir, env));
    var base := Prefixed(w, env);
    assert base == w.path + "." + env.stamp;
    assert ChosenName(w, dir, env)[..|base|] == base;
    assert base[|w.path| + 1..] == env.stamp;
    assert ChosenName(w, dir, env)[|w.path| + 1..|base|] == base[|w.path| + 1..];
  }

  // The history after a Write is the one before with at most one segment more, at the end.
  lemma NoteAscends(h: Segments, t: Trace)
    requires Ascending(h)
    requires t.rotated.Some? ==> GreaterThanKept(h, t.rotated.value.0)
    ensures Ascending(Note(h, t))
  {
    if t.rotated.Some? {
      GrownAscends(h, Segment(t.rotated.value.0, t.rotated.value.1, true));
    }
  }

  // Earlier than the Write's stamp, and then no later than it.
  predicate StampedBy(h: Segments, path: string, stamp: string) {
    forall i :: 0 <= i < |h| && h[i].kept ==>
      path + "." <= h[i].name && |path| + 1 + |stamp| <= |h[i].name|
      && (StampIn(path, h[i].name, |stamp|) == stamp || Less(StampIn(path, h[i].name, |stamp|), stamp))
  }

  lemma WriteAscends(h: Segments, w: Writer, dir: Dir, p: Bytes, env: Env)
    requires Sound(w, dir) && Ascending(h) && StampedBefore(h, w.path, env.stamp)
    ensures var g := Note(h, WriteOnce(w, dir, p, env).trace);
            Ascending(g) && StampedBy(g, w.path, env.stamp)
  {
    var o := Healed(w, dir, env);
    var t := WriteOnce(w, dir, p, env).trace;
    RotatedIsChosen(w, dir, p, env);
    if t.rotated.Some? {
      var name := ChosenName(o.w, o.dir, env);
      ChosenStamp(o.w, o.dir, env);
      forall i | 0 <= i < |h| && h[i].kept
        ensures Less(h[i].name, name)
      {
        LaterNameGreater(w.path, h[i].name, name, |env.stamp|);
      }
    }
    NoteAscends(h, t);
  }

  lemma RotatedIsChosen(w: Writer, dir: Dir, p: Bytes, env: Env)
    requires Sound(w, dir)
    ensures var o, t := Healed(w, dir, env), WriteOnce(w, dir, p, env).trace;
            t.rotated.Some? ==> t.rotated.value.0 == ChosenName(o.w, o.dir, env) && o.w.path == w.path
  {
  }

  // The stamps of the Writes of a run have one width and ascend.
  predicate StampsAscend(ops: seq<Op>) {
    forall i, j :: 0 <= i < j < |ops| && ops[i].Write? && ops[j].Write? ==>
      |ops[i].env.stamp| == |ops[j].env.stamp| && Less(ops[i].env.stamp, ops[j].env.stamp)
  }

  predicate StampedBeforeAll(h: Segments, path: string, ops: seq<Op>) {
    forall i :: 0 <= i < |ops| && ops[i].Write? ==> StampedBefore(h, path, ops[i].env.stamp)
  }

  lemma LaterStampsStill(g: Segments, path: string, stamp: string, later: string)
    requires StampedBy(g, path, stamp) && |stamp| == |later| && Less(stamp, later)
    ensures StampedBefore(g, path, later)
  {
    forall i | 0 <= i < |g| && g[i].kept
      ensures Less(StampIn(path, g[i].name, |later|), later)
    {
      if StampIn(path, g[i].name, |stamp|) != stamp {
        LessTransitive(StampIn(path, g[i].name, |stamp|), stamp, later);
      }
    }
  }

  /** Under a clock that gives every Write a later stamp of the same width, names ascend
      through any run and any failures, so every pruning keeps the most recent segments. */
  lemma {:induction false} RunAscends(s: World, ops: seq<Op>)
    requires Sound(s.w, s.dir) && Ascending(s.h) && StampsAscend(ops) && StampedBeforeAll(s.h, s.w.path, ops)
    ensures Ascending(Run(s, ops).h)
    decreases |ops|
  {
    if ops != [] {
      var t := Step(s, ops[0]);
      if ops[0].Write? {
        WriteAscends(s.h, s.w, s.dir, ops[0].p, ops[0].env);
        forall i | 0 <= i < |ops[1..]| && ops[1..][i].Write?
          ensures StampedBefore(t.h, s.w.path, ops[1..][i].env.stamp)
        {
          assert ops[1..][i] == ops[i + 1];
          LaterStampsStill(t.h, s.w.path, ops[0].env.stamp, ops[i + 1].env.stamp);
        }
      }
      assert forall i :: 0 <= i < |ops[1..]| ==> ops[1..][i] == ops[i + 1];
      RunAscends(t, ops[1..]);
    }
  }
}
