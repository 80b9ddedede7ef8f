/** The first-N-then-every-Mth processor (processor/sample.go). */
module Sampler {
  import opened KeyTrace

  const MAX_KEYS: nat := 4096

  datatype Config = Config(first: nat, thereafter: nat, window: int)

  datatype Entry = Entry(count: nat, windowStart: int)

  type Entries = map<Key, Entry>

  datatype Verdict = Verdict(entries: Entries, muted: bool)

  // Counting up in steps of t, which is never 0, one arrives at x: see DividesIff.
  predicate Divides(t: nat, x: nat)
    decreases x
  {
    t > 0 && (x == 0 || (x >= t && Divides(t, x - t)))
  }

  // The n-th message of a window passes: the first ones do, and then every so many-th.
  predicate Admits(cfg: Config, n: nat) {
    n <= cfg.first || Divides(cfg.thereafter, n - cfg.first)
  }

  predicate Restarts(entries: Entries, cfg: Config, e: Event) {
    e.key !in entries || (cfg.window > 0 && e.now - entries[e.key].windowStart >= cfg.window)
  }

  function Run(entries: Entries, bound: Bound, cfg: Config, e: Event): Verdict {
    var kept: Entries := if e.key !in entries && IsFull(bound, |entries|) then map[] else entries;
    var entry := if Restarts(entries, cfg, e) then Entry(1, e.now)
                 else entries[e.key].(count := entries[e.key].count + 1);
    Verdict(kept[e.key := entry], !Admits(cfg, entry.count))
  }

  class SampleProcessor {
    const cfg: Config
    var entries: Entries

    constructor (cfg: Config)
      ensures this.cfg == cfg && entries == map[]
    {
      this.cfg := cfg;
      entries := map[];
    }

    /** sampler.run. */
    method Process(key: Key, now: int) returns (muted: bool)
      modifies this
      ensures Verdict(entries, muted) == Run(old(entries), AtMost(MAX_KEYS), cfg, Event(key, now))
    {
      if key !in entries {
        if |entries| >= MAX_KEYS {
          entries := map[];
        }
        entries := entries[key := Entry(0, now)];
      }
      if cfg.window > 0 && now - entries[key].windowStart >= cfg.window {
        entries := entries[key := entries[key].(count := 0)];
        entries := entries[key := entries[key].(windowStart := now)];
      }
      entries := entries[key := entries[key].(count := entries[key].count + 1)];
      var n := entries[key].count;
      if n <= cfg.first {
        return false;
      }
      DividesIff(cfg.thereafter, n - cfg.first);
      if cfg.thereafter > 0 && (n - cfg.first) % cfg.thereafter == 0 {
        return false;
      }
      return true;
    }
  }

  // ---------------------------------------------------------------- traces

  function After(bound: Bound, cfg: Config, trace: seq<Event>): Entries {
    if trace == [] then map[]
    else
      var n := |trace| - 1;
      Run(After(bound, cfg, trace[..n]), bound, cfg, trace[n]).entries
  }

  function Gain(v: Verdict, e: Event, key: Key): nat {
    if e.key == key && !v.muted then 1 else 0
  }

  function Passes(bound: Bound, cfg: Config, trace: seq<Event>, key: Key): nat {
    if trace == [] then 0
    else
      var n := |trace| - 1;
      Passes(bound, cfg, trace[..n], key)
      + Gain(Run(After(bound, cfg, trace[..n]), bound, cfg, trace[n]), trace[n], key)
  }

  function Count(trace: seq<Event>, key: Key): nat {
    if trace == [] then 0
    else Count(trace[..|trace| - 1], key) + (if trace[|trace| - 1].key == key then 1 else 0)
  }

  // Messages of the key, and those that passed, since its current window began.
  function WindowTally(bound: Bound, cfg: Config, trace: seq<Event>, key: Key): (nat, nat) {
    if trace == [] then (0, 0)
    else
      var n := |trace| - 1;
      var before := After(bound, cfg, trace[..n]);
      var (seen, passed) := if trace[n].key == key && Restarts(before, cfg, trace[n]) then (0, 0)
                            else WindowTally(bound, cfg, trace[..n], key);
      if trace[n].key != key then (seen, passed)
      else (seen + 1, passed + if Run(before, bound, cfg, trace[n]).muted then 0 else 1)
  }

  /** The number of the key's last message in its window, and when the window began: a window
      begins with a message of a key that is not remembered, or that comes at least the window's
      length, if that is positive, after the previous one began. */
  function Position(bound: Bound, cfg: Config, trace: seq<Event>, key: Key): (nat, int) {
    if trace == [] then (0, 0)
    else
      var n := |trace| - 1;
      var (count, start) := Position(bound, cfg, trace[..n], key);
      if trace[n].key != key then (count, start)
      else if key !in KeysAfter(bound, trace[..n]) then (1, trace[n].now)
      else if cfg.window > 0 && trace[n].now - start >= cfg.window then (1, trace[n].now)
      else (count + 1, start)
  }

  lemma {:induction false} KeysAgree(bound: Bound, cfg: Config, trace: seq<Event>)
    ensures After(bound, cfg, trace).Keys == KeysAfter(bound, trace)
    decreases |trace|
  {
    if trace != [] {
      KeysAgree(bound, cfg, trace[..|trace| - 1]);
    }
  }

  lemma {:induction false} EntryIsPosition(bound: Bound, cfg: Config, trace: seq<Event>, key: Key)
    ensures var m := After(bound, cfg, trace);
            key in m ==> Position(bound, cfg, trace, key) == (m[key].count, m[key].windowStart)
  {
    if trace != [] {
      var n := |trace| - 1;
      EntryIsPosition(bound, cfg, trace[..n], key);
      KeysAgree(bound, cfg, trace[..n]);
    }
  }

  lemma MutesIff(bound: Bound, cfg: Config, trace: seq<Event>, e: Event)
    ensures var n := Position(bound, cfg, trace + [e], e.key).0;
            Run(After(bound, cfg, trace), bound, cfg, e).muted <==> !Admits(cfg, n)
  {
    assert (trace + [e])[..|trace|] == trace;
    EntryIsPosition(bound, cfg, trace, e.key);
    KeysAgree(bound, cfg, trace);
  }

  /** The first ones of a window pass, and those a multiple of `thereafter` beyond them. */
  lemma AdmitsIff(cfg: Config, n: nat)
    ensures Admits(cfg, n) <==> n <= cfg.first || (cfg.thereafter > 0 && (n - cfg.first) % cfg.thereafter == 0)
  {
    if n > cfg.first {
      DividesIff(cfg.thereafter, n - cfg.first);
    }
  }

  /** A message passes exactly when its number in the window is such a one. */
  lemma PassesIff(bound: Bound, cfg: Config, trace: seq<Event>, e: Event)
    ensures var n := Position(bound, cfg, trace + [e], e.key).0;
            !Run(After(bound, cfg, trace), bound, cfg, e).muted <==>
              n <= cfg.first || (cfg.thereafter > 0 && (n - cfg.first) % cfg.thereafter == 0)
  {
    MutesIff(bound, cfg, trace, e);
    AdmitsIff(cfg, Position(bound, cfg, trace + [e], e.key).0);
  }

  // ---------------------------------------------------------------- the closed form

  // How many of the first n messages of a window pass, counted one by one.
  function Quota(cfg: Config, n: nat): nat {
    if n == 0 then 0 else Quota(cfg, n - 1) + if Admits(cfg, n) then 1 else 0
  }

  /** The closed form: the first ones, and one for every `thereafter` beyond them. */
  function Formula(cfg: Config, n: nat): nat {
    if n <= cfg.first then n
    else cfg.first + (if cfg.thereafter > 0 then (n - cfg.first) / cfg.thereafter else 0)
  }

  lemma DivStep(x: nat, t: nat)
    requires t > 0
    ensures (x + 1) / t == x / t + (if (x + 1) % t == 0 then 1 else 0)
  {
    var q, r := x / t, x % t;
    assert x == q * t + r;
    if r + 1 == t {
      assert x + 1 == (q + 1) * t;
      DivUnique(x + 1, t, q + 1, 0);
    } else {
      DivUnique(x + 1, t, q, r + 1);
    }
  }

  lemma MulMonotone(a: int, b: int, t: nat)
    requires a <= b
    ensures a * t <= b * t
  {
  }

  lemma DivUnique(x: nat, t: nat, q: nat, r: nat)
    requires t > 0 && r < t && x == q * t + r
    ensures x / t == q && x % t == r
  {
    var d := x / t - q;
    assert d * t == r - x % t;
    if d >= 1 {
      MulMonotone(1, d, t);
    } else if d <= -1 {
      MulMonotone(d, -1, t);
    }
  }

  lemma ModStep(t: nat, x: nat)
    requires 0 < t <= x
    ensures (x - t) % t == x % t
  {
    var q, r := (x - t) / t, (x - t) % t;
    assert x == q * t + t + r == (q + 1) * t + r;
    DivUnique(x, t, q + 1, r);
  }

  /** The remainder test of the code. */
  lemma {:induction false} DividesIff(t: nat, x: nat)
    ensures Divides(t, x) <==> t > 0 && x % t == 0
    decreases x
  {
    if 0 < t <= x {
      DividesIff(t, x - t);
      ModStep(t, x);
    } else if t > 0 {
      DivUnique(x, t, 0, x);
    }
  }

  lemma FormulaStep(cfg: Config, n: nat)
    ensures Formula(cfg, n + 1) == Formula(cfg, n) + (if Admits(cfg, n + 1) then 1 else 0)
  {
    if n >= cfg.first && cfg.thereafter > 0 {
      DivStep(n - cfg.first, cfg.thereafter);
      DividesIff(cfg.thereafter, n + 1 - cfg.first);
      if n == cfg.first {
        assert 0 / cfg.thereafter == 0;
      }
    }
  }

  lemma {:induction false} QuotaIsFormula(cfg: Config, n: nat)
    ensures Quota(cfg, n) == Formula(cfg, n) <= n
  {
    if n > 0 {
      QuotaIsFormula(cfg, n - 1);
      FormulaStep(cfg, n - 1);
    }
  }

  lemma {:induction false} TallyIsQuota(bound: Bound, cfg: Config, trace: seq<Event>, key: Key)
    ensures var (seen, passed) := WindowTally(bound, cfg, trace, key);
            && passed == Quota(cfg, seen)
            && (key in After(bound, cfg, trace) ==> After(bound, cfg, trace)[key].count == seen)
    decreases |trace|
  {
    if trace != [] {
      TallyIsQuota(bound, cfg, trace[..|trace| - 1], key);
    }
  }

  /** Of the messages of a key since its window began exactly Formula pass, in every trace,
      with any interleaving of other keys, any clock, and with or without evictions. */
  lemma ClosedForm(bound: Bound, cfg: Config, trace: seq<Event>, key: Key)
    ensures var (seen, passed) := WindowTally(bound, cfg, trace, key);
            passed == Formula(cfg, seen)
  {
    TallyIsQuota(bound, cfg, trace, key);
    QuotaIsFormula(cfg, WindowTally(bound, cfg, trace, key).0);
  }

  // ---------------------------------------------------------------- eviction

  lemma DivAdd(x: nat, k: nat, t: nat)
    requires t > 0
    ensures (x + k) / t <= x / t + k
    decreases k
  {
    if k > 0 {
      DivAdd(x, k - 1, t);
      DivStep(x + k - 1, t);
    }
  }

  lemma DivSum(x: nat, y: nat, t: nat)
    requires t > 0
    ensures (x + y + 1) / t <= x / t + y / t + 1
  {
    var q := x / t + y / t;
    assert x == x / t * t + x % t && y == y / t * t + y % t;
    assert (q + 2) * t == x / t * t + y / t * t + 2 * t;
    assert x + y + 1 < (q + 2) * t;
    if (x + y + 1) / t >= q + 2 {
      MulMonotone(q + 2, (x + y + 1) / t, t);
    }
  }

  lemma FormulaSplit(cfg: Config, a: nat, b: nat)
    requires cfg.first >= 1 || cfg.thereafter <= 1
    requires Formula(cfg, a + b) <= a + b
    ensures Formula(cfg, a) + Formula(cfg, b) >= Formula(cfg, a + b)
  {
    var f, t := cfg.first, cfg.thereafter;
    if a + b > f && t > 0 {
      if a <= f && b > f {
        DivAdd(b - f, a, t);
      } else if a > f && b <= f {
        DivAdd(a - f, b, t);
      } else if a > f && b > f && f >= 1 {
        DivSum(a - f, b - f, t);
        DivAdd(a - f + b - f + 1, f - 1, t);
      }
    }
  }

  /** Cutting a window in two never lets fewer messages through, provided the first
      message of a window passes, or either every message does or none beyond `first`. */
  lemma QuotaSplit(cfg: Config, a: nat, b: nat)
    requires cfg.first >= 1 || cfg.thereafter <= 1
    ensures Quota(cfg, a) + Quota(cfg, b) >= Quota(cfg, a + b)
  {
    QuotaIsFormula(cfg, a);
    QuotaIsFormula(cfg, b);
    QuotaIsFormula(cfg, a + b);
    FormulaSplit(cfg, a, b);
  }

  /** The claim of the code's comment: an eviction costs at most a few extra messages. */
  ghost predicate EvictionSafe(n: nat, cfg: Config) {
    forall trace: seq<Event>, key: Key ::
      Monotone(trace) ==> Passes(AtMost(n), cfg, trace, key) >= Passes(Unbounded, cfg, trace, key)
  }

  // Entries count at least the message that made them, which has passed if the first
  // message of a window passes, and never start in the future.
  lemma {:induction false} EntryFacts(bound: Bound, cfg: Config, trace: seq<Event>, key: Key)
    requires Monotone(trace)
    ensures var m := After(bound, cfg, trace);
            && (key in m ==> trace != [] && m[key].count >= 1 && m[key].windowStart <= trace[|trace| - 1].now)
            && (key in m && cfg.first >= 1 ==> Passes(bound, cfg, trace, key) > 0)
            && (bound.Unbounded? && Passes(bound, cfg, trace, key) > 0 ==> key in m)
    decreases |trace|
  {
    if trace != [] {
      EntryFacts(bound, cfg, trace[..|trace| - 1], key);
    }
  }

  // ---------------------------------------------------------------- narrow windows

  // While a window is open, evictions only cut the key's messages in it into segments: the
  // last cb of cu messages are in the current one.
  predicate Segmented(cfg: Config, b: Entries, pb: nat, u: Entries, pu: nat, key: Key) {
    if key in b then
      && key in u && b[key].count <= u[key].count && (cfg.window > 0 ==> b[key].windowStart == u[key].windowStart)
      && pb + Quota(cfg, u[key].count) >= pu + Quota(cfg, u[key].count - b[key].count) + Quota(cfg, b[key].count)
    else pb >= pu
  }

  // Segments let through what the whole window would have.
  lemma SegmentedPasses(cfg: Config, b: Entries, pb: nat, u: Entries, pu: nat, key: Key)
    requires cfg.first >= 1 || cfg.thereafter <= 1
    requires Segmented(cfg, b, pb, u, pu, key)
    ensures pb >= pu
  {
    if key in b {
      QuotaSplit(cfg, u[key].count - b[key].count, b[key].count);
    }
  }

  lemma SameKeyStep(n: nat, cfg: Config, b: Entries, pb: nat, u: Entries, pu: nat, key: Key, e: Event)
    requires cfg.window <= 1 && (cfg.first >= 1 || cfg.thereafter <= 1)
    requires e.key == key && Segmented(cfg, b, pb, u, pu, key) && (key in u ==> u[key].windowStart <= e.now)
    ensures var vb, vu := Run(b, AtMost(n), cfg, e), Run(u, Unbounded, cfg, e);
            Segmented(cfg, vb.entries, pb + Gain(vb, e, key), vu.entries, pu + Gain(vu, e, key), key)
  {
    SegmentedPasses(cfg, b, pb, u, pu, key);
    assert Quota(cfg, 0) == 0 && Quota(cfg, 1) == if Admits(cfg, 1) then 1 else 0;
  }

  // Another key either leaves the entry alone or evicts it, which ends the segment.
  lemma OtherKeyStep(n: nat, cfg: Config, b: Entries, pb: nat, u: Entries, pu: nat, key: Key, e: Event)
    requires cfg.first >= 1 || cfg.thereafter <= 1
    requires e.key != key && Segmented(cfg, b, pb, u, pu, key)
    ensures Segmented(cfg, Run(b, AtMost(n), cfg, e).entries, pb, Run(u, Unbounded, cfg, e).entries, pu, key)
  {
    SegmentedPasses(cfg, b, pb, u, pu, key);
  }

  lemma SegmentStep(n: nat, cfg: Config, b: Entries, pb: nat, u: Entries, pu: nat, key: Key, e: Event)
    requires cfg.window <= 1 && (cfg.first >= 1 || cfg.thereafter <= 1)
    requires Segmented(cfg, b, pb, u, pu, key) && (key in u ==> u[key].windowStart <= e.now)
    ensures var vb, vu := Run(b, AtMost(n), cfg, e), Run(u, Unbounded, cfg, e);
            Segmented(cfg, vb.entries, pb + Gain(vb, e, key), vu.entries, pu + Gain(vu, e, key), key)
  {
    if e.key == key {
      SameKeyStep(n, cfg, b, pb, u, pu, key, e);
    } else {
      OtherKeyStep(n, cfg, b, pb, u, pu, key, e);
    }
  }

  /** With an infinite window, or one of a single tick, a run cut by evictions passes at
      least as many messages of each key as the uncut one. */
  lemma {:induction false} NarrowWindow(n: nat, cfg: Config, trace: seq<Event>, key: Key)
    requires cfg.window <= 1 && (cfg.first >= 1 || cfg.thereafter <= 1) && Monotone(trace)
    ensures Segmented(cfg, After(AtMost(n), cfg, trace), Passes(AtMost(n), cfg, trace, key),
                      After(Unbounded, cfg, trace), Passes(Unbounded, cfg, trace, key), key)
    decreases |trace|
  {
    if trace != [] {
      var k := |trace| - 1;
      var before, e := trace[..k], trace[k];
      NarrowWindow(n, cfg, before, key);
      EntryFacts(Unbounded, cfg, before, key);
      SegmentStep(n, cfg, After(AtMost(n), cfg, before), Passes(AtMost(n), cfg, before, key),
                  After(Unbounded, cfg, before), Passes(Unbounded, cfg, before, key), key, e);
    }
  }

  // ---------------------------------------------------------------- once per window

  // Equal counts mean the bounded run has waited at least as long since its last pass.
  predicate AheadOrEven(b: Entries, pb: nat, u: Entries, pu: nat, key: Key) {
    pb > pu || (pb == pu && (key in b ==> key in u && b[key].windowStart <= u[key].windowStart))
  }

  lemma OnceStep(n: nat, cfg: Config, b: Entries, pb: nat, u: Entries, pu: nat, key: Key, e: Event)
    requires cfg.first == 1 && cfg.thereafter == 0 && AheadOrEven(b, pb, u, pu, key)
    requires key in b ==> pb > 0 && b[key].count >= 1 && b[key].windowStart <= e.now
    requires key in u ==> u[key].count >= 1 && u[key].windowStart <= e.now
    requires pu > 0 ==> key in u
    ensures var vb, vu := Run(b, AtMost(n), cfg, e), Run(u, Unbounded, cfg, e);
            AheadOrEven(vb.entries, pb + Gain(vb, e, key), vu.entries, pu + Gain(vu, e, key), key)
  {
  }

  /** First = 1 and Thereafter = 0 is logging once per window. */
  lemma {:induction false} OncePerWindow(n: nat, cfg: Config, trace: seq<Event>, key: Key)
    requires cfg.first == 1 && cfg.thereafter == 0 && Monotone(trace)
    ensures AheadOrEven(After(AtMost(n), cfg, trace), Passes(AtMost(n), cfg, trace, key),
                        After(Unbounded, cfg, trace), Passes(Unbounded, cfg, trace, key), key)
    decreases |trace|
  {
    if trace != [] {
      var k := |trace| - 1;
      var before, e := trace[..k], trace[k];
      OncePerWindow(n, cfg, before, key);
      EntryFacts(AtMost(n), cfg, before, key);
      EntryFacts(Unbounded, cfg, before, key);
      OnceStep(n, cfg, After(AtMost(n), cfg, before), Passes(AtMost(n), cfg, before, key),
               After(Unbounded, cfg, before), Passes(Unbounded, cfg, before, key), key, e);
    }
  }

  // ---------------------------------------------------------------- all or nothing

  lemma {:induction false} DividesByOne(x: nat)
    ensures Divides(1, x)
  {
    if x > 0 {
      DividesByOne(x - 1);
    }
  }

  lemma {:induction false} AllPass(bound: Bound, cfg: Config, trace: seq<Event>, key: Key)
    requires cfg.thereafter == 1
    ensures Passes(bound, cfg, trace, key) == Count(trace, key)
    decreases |trace|
  {
    if trace != [] {
      var n := |trace| - 1;
      AllPass(bound, cfg, trace[..n], key);
      AdmittedByOne(After(bound, cfg, trace[..n]), bound, cfg, trace[n]);
    }
  }

  lemma AdmittedByOne(m: Entries, bound: Bound, cfg: Config, e: Event)
    requires cfg.thereafter == 1
    ensures !Run(m, bound, cfg, e).muted
  {
    var c := Run(m, bound, cfg, e).entries[e.key].count;
    if c > cfg.first {
      DividesByOne(c - cfg.first);
    }
  }

  lemma {:induction false} NonePasses(bound: Bound, cfg: Config, trace: seq<Event>, key: Key)
    requires cfg.thereafter == 0 && cfg.first == 0
    ensures Passes(bound, cfg, trace, key) == 0
    decreases |trace|
  {
    if trace != [] {
      NonePasses(bound, cfg, trace[..|trace| - 1], key);
    }
  }

  /** The settings for which the claim holds. */
  predicate SafeConfig(cfg: Config) {
    || cfg.thereafter == 1                           // every message passes
    || (cfg.thereafter == 0 && cfg.first <= 1)       // none, or one per window
    || (cfg.window <= 1 && cfg.first >= 1)
  }

  lemma SafeWhen(n: nat, cfg: Config, trace: seq<Event>, key: Key)
    requires SafeConfig(cfg) && Monotone(trace)
    ensures Passes(AtMost(n), cfg, trace, key) >= Passes(Unbounded, cfg, trace, key)
  {
    if cfg.thereafter == 1 {
      AllPass(AtMost(n), cfg, trace, key);
      AllPass(Unbounded, cfg, trace, key);
    } else if cfg.thereafter == 0 && cfg.first == 0 {
      NonePasses(Unbounded, cfg, trace, key);
    } else if cfg.thereafter == 0 && cfg.first == 1 {
      OncePerWindow(n, cfg, trace, key);
    } else {
      NarrowWindow(n, cfg, trace, key);
      SegmentedPasses(cfg, After(AtMost(n), cfg, trace), Passes(AtMost(n), cfg, trace, key),
                      After(Unbounded, cfg, trace), Passes(Unbounded, cfg, trace, key), key);
    }
  }

  // ---------------------------------------------------------------- when it is not safe

  // The entries, and how many messages of the empty key have passed.
  datatype Progress = Progress(entries: Entries, passed: nat)

  function Feed(bound: Bound, cfg: Config, p: Progress, e: Event): Progress {
    var v := Run(p.entries, bound, cfg, e);
    Progress(v.entries, p.passed + Gain(v, e, ""))
  }

  /** The empty key k times, at time t. */
  function FeedAgain(bound: Bound, cfg: Config, p: Progress, t: int, k: nat): Progress {
    if k == 0 then p else Feed(bound, cfg, FeedAgain(bound, cfg, p, t, k - 1), Event("", t))
  }

  // The empty key's window began at time s and has seen c messages; base passed before it.
  predicate Stands(cfg: Config, p: Progress, c: nat, s: int, base: nat) {
    "" in p.entries && p.entries[""] == Entry(c, s) && p.passed == base + Quota(cfg, c)
  }

  lemma Opens(bound: Bound, cfg: Config, p: Progress, t: int)
    requires Restarts(p.entries, cfg, Event("", t))
    ensures Stands(cfg, Feed(bound, cfg, p, Event("", t)), 1, t, p.passed)
  {
    assert Quota(cfg, 1) == if Admits(cfg, 1) then 1 else 0;
  }

  lemma Continues(bound: Bound, cfg: Config, p: Progress, c: nat, s: int, base: nat, t: int)
    requires Stands(cfg, p, c, s, base) && (cfg.window <= 0 || t - s < cfg.window)
    ensures Stands(cfg, Feed(bound, cfg, p, Event("", t)), c + 1, s, base)
  {
  }

  lemma {:induction false} ContinuesAgain(bound: Bound, cfg: Config, p: Progress, c: nat, s: int, base: nat, t: int,
                                          k: nat)
    requires Stands(cfg, p, c, s, base) && (cfg.window <= 0 || t - s < cfg.window)
    ensures Stands(cfg, FeedAgain(bound, cfg, p, t, k), c + k, s, base)
    decreases k
  {
    if k > 0 {
      ContinuesAgain(bound, cfg, p, c, s, base, t, k - 1);
      Continues(bound, cfg, FeedAgain(bound, cfg, p, t, k - 1), c + k - 1, s, base, t);
    }
  }

  // A window opened by the first of k messages at time t.
  lemma {:induction false} OpensAgain(bound: Bound, cfg: Config, p: Progress, t: int, k: nat)
    requires k > 0 && Restarts(p.entries, cfg, Event("", t))
    ensures Stands(cfg, FeedAgain(bound, cfg, p, t, k), k, t, p.passed)
    decreases k
  {
    if k == 1 {
      assert FeedAgain(bound, cfg, p, t, 0) == p;
      Opens(bound, cfg, p, t);
    } else {
      OpensAgain(bound, cfg, p, t, k - 1);
      Continues(bound, cfg, FeedAgain(bound, cfg, p, t, k - 1), k - 1, t, p.passed, t);
    }
  }

  // ---------------------------------------------------------------- the same on traces

  function At(bound: Bound, cfg: Config, trace: seq<Event>): Progress {
    Progress(After(bound, cfg, trace), Passes(bound, cfg, trace, ""))
  }

  lemma OneMore(bound: Bound, cfg: Config, trace: seq<Event>, e: Event)
    ensures At(bound, cfg, trace + [e]) == Feed(bound, cfg, At(bound, cfg, trace), e)
  {
    assert (trace + [e])[..|trace|] == trace;
  }

  function Again(trace: seq<Event>, t: int, k: nat): (r: seq<Event>)
    requires Monotone(trace) && Follows(trace, t)
    ensures Monotone(r) && Follows(r, t)
    decreases k
  {
    if k == 0 then trace
    else
      MonotoneExtends(Again(trace, t, k - 1), Event("", t));
      Again(trace, t, k - 1) + [Event("", t)]
  }

  lemma {:induction false} AtAgain(bound: Bound, cfg: Config, trace: seq<Event>, t: int, k: nat)
    requires Monotone(trace) && Follows(trace, t)
    ensures At(bound, cfg, Again(trace, t, k)) == FeedAgain(bound, cfg, At(bound, cfg, trace), t, k)
    decreases k
  {
    if k > 0 {
      AtAgain(bound, cfg, trace, t, k - 1);
      OneMore(bound, cfg, Again(trace, t, k - 1), Event("", t));
    }
  }

  // The empty key is remembered as it was or evicted; its passes do not change.
  predicate Holds(bound: Bound, cfg: Config, p: Progress, m: nat) {
    && p.passed == Quota(cfg, m)
    && ("" in p.entries ==> p.entries[""] == Entry(m, 0))
    && (bound.Unbounded? ==> "" in p.entries)
  }

  lemma FeedOther(bound: Bound, cfg: Config, p: Progress, m: nat, e: Event)
    requires e.key != "" && Holds(bound, cfg, p, m)
    ensures Holds(bound, cfg, Feed(bound, cfg, p, e), m)
  {
  }

  lemma {:induction false} FirstFill(bound: Bound, cfg: Config, m: nat)
    requires m > 0
    ensures Stands(cfg, At(bound, cfg, Fill(m, 0)), m, 0, 0)
  {
    if m > 1 {
      FirstFill(bound, cfg, m - 1);
      OneMore(bound, cfg, Fill(m - 1, 0), Event("", 0));
      Continues(bound, cfg, At(bound, cfg, Fill(m - 1, 0)), m - 1, 0, 0, 0);
    } else {
      assert [] + Fill(1, 0) == Fill(1, 0);
      OneMore(bound, cfg, [], Event("", 0));
      Opens(bound, cfg, At(bound, cfg, []), 0);
    }
  }

  lemma {:induction false} FillHolds(bound: Bound, cfg: Config, m: nat, k: nat)
    requires m > 0
    ensures Holds(bound, cfg, At(bound, cfg, Fill(m, k)), m)
    decreases k
  {
    if k > 0 {
      FillHolds(bound, cfg, m, k - 1);
      OneMore(bound, cfg, Fill(m, k - 1), Event(Filler(k - 1), 0));
      FeedOther(bound, cfg, At(bound, cfg, Fill(m, k - 1)), m, Event(Filler(k - 1), 0));
    } else {
      FirstFill(bound, cfg, m);
    }
  }

  // After n fillers the bounded map has forgotten the empty key, the unbounded one has not.
  predicate Remembers(cfg: Config, p: Progress, m: nat) {
    Stands(cfg, p, m, 0, 0)
  }

  predicate Forgot(cfg: Config, p: Progress, m: nat) {
    "" !in p.entries && p.passed == Quota(cfg, m)
  }

  lemma Filled(n: nat, cfg: Config, m: nat)
    requires n > 0 && m > 0
    ensures Remembers(cfg, At(Unbounded, cfg, Fill(m, n)), m)
    ensures Forgot(cfg, At(AtMost(n), cfg, Fill(m, n)), m)
  {
    FillHolds(Unbounded, cfg, m, n);
    FillHolds(AtMost(n), cfg, m, n);
    KeysAgree(AtMost(n), cfg, Fill(m, n));
    FillEvicts(n, m);
  }

  lemma OneTraceUnsafe(n: nat, cfg: Config, trace: seq<Event>)
    requires Monotone(trace) && At(AtMost(n), cfg, trace).passed < At(Unbounded, cfg, trace).passed
    ensures !EvictionSafe(n, cfg)
  {
  }

  // k more messages at the time of the m before the eviction.
  lemma AtOnce(bound: Bound, cfg: Config, p: Progress, m: nat, k: nat)
    requires k > 0
    ensures Remembers(cfg, p, m) ==> FeedAgain(bound, cfg, p, 0, k).passed == Quota(cfg, m + k)
    ensures Forgot(cfg, p, m) ==> FeedAgain(bound, cfg, p, 0, k).passed == Quota(cfg, m) + Quota(cfg, k)
  {
    if Remembers(cfg, p, m) {
      ContinuesAgain(bound, cfg, p, m, 0, 0, 0, k);
    } else if Forgot(cfg, p, m) {
      OpensAgain(bound, cfg, p, 0, k);
    }
  }

  // One message in the last tick of the window of those m, and k right after it.
  lemma ShiftedRemembers(bound: Bound, cfg: Config, p: Progress, m: nat, w: int, k: nat)
    requires k > 0 && w == cfg.window >= 2 && Remembers(cfg, p, m)
    ensures FeedAgain(bound, cfg, FeedAgain(bound, cfg, p, w - 1, 1), w, k).passed == Quota(cfg, m + 1) + Quota(cfg, k)
  {
    ContinuesAgain(bound, cfg, p, m, 0, 0, w - 1, 1);
    OpensAgain(bound, cfg, FeedAgain(bound, cfg, p, w - 1, 1), w, k);
  }

  lemma ShiftedForgot(bound: Bound, cfg: Config, p: Progress, m: nat, w: int, k: nat)
    requires k > 0 && w == cfg.window >= 2 && Forgot(cfg, p, m)
    ensures FeedAgain(bound, cfg, FeedAgain(bound, cfg, p, w - 1, 1), w, k).passed == Quota(cfg, m) + Quota(cfg, 1 + k)
  {
    OpensAgain(bound, cfg, p, w - 1, 1);
    ContinuesAgain(bound, cfg, FeedAgain(bound, cfg, p, w - 1, 1), 1, w - 1, p.passed, w, k);
  }

  /** The key m times, an eviction, and the key k more times at once: the cut window loses
      a message if the quotas say so. */
  lemma CutAtOnceUnsafe(n: nat, cfg: Config, m: nat, k: nat)
    requires n > 0 && m > 0 && k > 0 && Quota(cfg, m) + Quota(cfg, k) < Quota(cfg, m + k)
    ensures !EvictionSafe(n, cfg)
  {
    Filled(n, cfg, m);
    AtAgain(Unbounded, cfg, Fill(m, n), 0, k);
    AtAgain(AtMost(n), cfg, Fill(m, n), 0, k);
    AtOnce(Unbounded, cfg, At(Unbounded, cfg, Fill(m, n)), m, k);
    AtOnce(AtMost(n), cfg, At(AtMost(n), cfg, Fill(m, n)), m, k);
    OneTraceUnsafe(n, cfg, Again(Fill(m, n), 0, k));
  }

  lemma AtShifted(bound: Bound, cfg: Config, trace: seq<Event>, w: int, k: nat)
    requires Monotone(trace) && Follows(trace, w - 1)
    ensures At(bound, cfg, Again(Again(trace, w - 1, 1), w, k))
         == FeedAgain(bound, cfg, FeedAgain(bound, cfg, At(bound, cfg, trace), w - 1, 1), w, k)
  {
    AtAgain(bound, cfg, trace, w - 1, 1);
    AtAgain(bound, cfg, Again(trace, w - 1, 1), w, k);
  }

  /** The key m times, an eviction, the key once in the last tick of its window, and k times
      right after it: the eviction opened a window that ends later. */
  lemma CutShiftedUnsafe(n: nat, cfg: Config, m: nat, w: int, k: nat)
    requires n > 0 && m > 0 && k > 0 && w == cfg.window >= 2
    requires Quota(cfg, m) + Quota(cfg, 1 + k) < Quota(cfg, m + 1) + Quota(cfg, k)
    ensures !EvictionSafe(n, cfg)
  {
    Filled(n, cfg, m);
    var f := Fill(m, n);
    AtShifted(Unbounded, cfg, f, w, k);
    AtShifted(AtMost(n), cfg, f, w, k);
    ShiftedRemembers(Unbounded, cfg, At(Unbounded, cfg, f), m, w, k);
    ShiftedForgot(AtMost(n), cfg, At(AtMost(n), cfg, f), m, w, k);
    OneTraceUnsafe(n, cfg, Again(Again(f, w - 1, 1), w, k));
  }

  // Quotas around `first`, and around `thereafter`.
  lemma QuotaBelowFirst(cfg: Config, n: nat)
    requires n <= cfg.first
    ensures Quota(cfg, n) == n
  {
    QuotaIsFormula(cfg, n);
  }

  lemma QuotaPastFirst(cfg: Config, n: nat)
    requires cfg.thereafter >= 2 && cfg.first <= n <= cfg.first + cfg.thereafter
    ensures Quota(cfg, n) == cfg.first + if n < cfg.first + cfg.thereafter then 0 else 1
  {
    QuotaIsFormula(cfg, n);
    var k := n - cfg.first;
    if k < cfg.thereafter {
      DivUnique(k, cfg.thereafter, 0, k);
    } else {
      DivUnique(k, k, 1, 0);
    }
  }

  lemma QuotaAfterFirst(cfg: Config)
    requires cfg.thereafter != 1
    ensures Quota(cfg, 1 + cfg.first) == cfg.first
  {
    if cfg.thereafter == 0 {
      QuotaIsFormula(cfg, 1 + cfg.first);
    } else {
      QuotaPastFirst(cfg, 1 + cfg.first);
    }
  }

  /** Otherwise a message is lost. With First = 0 the cut window never gets to its
      Thereafter-th message; with a longer window the one the eviction opens swallows the
      message that would have been the Thereafter-th, or the last of the First. */
  lemma UnsafeWhen(n: nat, cfg: Config)
    requires n > 0 && !SafeConfig(cfg)
    ensures !EvictionSafe(n, cfg)
  {
    var f, t := cfg.first, cfg.thereafter;
    if f == 0 {
      QuotaPastFirst(cfg, 1);
      QuotaPastFirst(cfg, t - 1);
      QuotaPastFirst(cfg, t);
      CutAtOnceUnsafe(n, cfg, 1, t - 1);
    } else if f == 1 {
      QuotaBelowFirst(cfg, 1);
      QuotaPastFirst(cfg, t);
      QuotaPastFirst(cfg, t + 1);
      QuotaPastFirst(cfg, 2);
      CutShiftedUnsafe(n, cfg, t, cfg.window, 1);
    } else {
      QuotaBelowFirst(cfg, 1);
      QuotaBelowFirst(cfg, 2);
      QuotaBelowFirst(cfg, f);
      QuotaAfterFirst(cfg);
      CutShiftedUnsafe(n, cfg, 1, cfg.window, f);
    }
  }

  /** Evicting everything never loses a message of any key exactly for the safe settings. */
  lemma EvictionSafeIff(n: nat, cfg: Config)
    requires n > 0
    ensures EvictionSafe(n, cfg) <==> SafeConfig(cfg)
  {
    if SafeConfig(cfg) {
      forall trace: seq<Event>, key: Key | Monotone(trace)
        ensures Passes(AtMost(n), cfg, trace, key) >= Passes(Unbounded, cfg, trace, key)
      {
        SafeWhen(n, cfg, trace, key);
      }
    } else {
      UnsafeWhen(n, cfg);
    }
  }
}
