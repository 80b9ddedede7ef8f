/** The log-once-per-window processor (processor/dedup.go). */
module Dedup {
  import opened Wrappers
  import opened KeyTrace

  const MAX_KEYS: nat := 4096

  datatype Entry = Entry(lastLogged: int, suppressed: nat)

  type Entries = map<Key, Entry>

  datatype Verdict = Verdict(entries: Entries, muted: bool, report: nat)

  /** One message. A window that is not positive is a single infinite window. */
  function Run(entries: Entries, bound: Bound, window: int, e: Event): Verdict {
    if e.key !in entries then
      var kept: Entries := if IsFull(bound, |entries|) then map[] else entries;
      Verdict(kept[e.key := Entry(e.now, 0)], false, 0)
    else
      var entry := entries[e.key];
      if window > 0 && e.now - entry.lastLogged >= window then
        Verdict(entries[e.key := Entry(e.now, 0)], false, entry.suppressed)
      else
        Verdict(entries[e.key := entry.(suppressed := entry.suppressed + 1)], true, 0)
  }

  class Deduper {
    const window: int
    var entries: Entries

    constructor (window: int)
      ensures this.window == window && entries == map[]
    {
      this.window := window;
      entries := map[];
    }

    /** deduper.run: the message is muted or not, and `report` is what the callback gets
        when it is positive. */
    method Process(key: Key, now: int) returns (muted: bool, report: nat)
      modifies this
      ensures Verdict(entries, muted, report) == Run(old(entries), AtMost(MAX_KEYS), window, Event(key, now))
    {
      muted, report := false, 0;
      if key !in entries {
        if |entries| >= MAX_KEYS {
          entries := map[];
        }
        entries := entries[key := Entry(now, 0)];
      } else if window > 0 && now - entries[key].lastLogged >= window {
        report := entries[key].suppressed;
        entries := entries[key := entries[key].(suppressed := 0)];
        entries := entries[key := entries[key].(lastLogged := now)];
      } else {
        entries := entries[key := entries[key].(suppressed := entries[key].suppressed + 1)];
        muted := true;
      }
    }
  }

  // ---------------------------------------------------------------- traces

  function After(bound: Bound, window: int, trace: seq<Event>): Entries {
    if trace == [] then map[]
    else
      var n := |trace| - 1;
      Run(After(bound, window, trace[..n]), bound, window, trace[n]).entries
  }

  // What happens to the last message of a trace.
  function Last(bound: Bound, window: int, trace: seq<Event>): Verdict
    requires trace != []
  {
    var n := |trace| - 1;
    Run(After(bound, window, trace[..n]), bound, window, trace[n])
  }

  predicate PassesAt(bound: Bound, window: int, trace: seq<Event>, i: nat)
    requires i < |trace|
  {
    !Last(bound, window, trace[..i + 1]).muted
  }

  /** How many messages of the key pass. */
  function Passes(bound: Bound, window: int, trace: seq<Event>, key: Key): nat {
    if trace == [] then 0
    else
      var n := |trace| - 1;
      Passes(bound, window, trace[..n], key) +
      (if trace[n].key == key && !Last(bound, window, trace).muted then 1 else 0)
  }

  lemma {:induction false} KeysAgree(bound: Bound, window: int, trace: seq<Event>)
    ensures After(bound, window, trace).Keys == KeysAfter(bound, trace)
  {
    if trace != [] {
      KeysAgree(bound, window, trace[..|trace| - 1]);
    }
  }

  // Facts about one run: entries exist exactly when something passed and was not evicted,
  // and never carry a later time than the clock.
  lemma {:induction false} EntryFacts(bound: Bound, window: int, trace: seq<Event>, key: Key)
    requires Monotone(trace)
    ensures key in After(bound, window, trace) ==> Passes(bound, window, trace, key) > 0
    ensures key in After(bound, window, trace) ==>
              trace != [] && After(bound, window, trace)[key].lastLogged <= trace[|trace| - 1].now
    ensures bound.Unbounded? && Passes(bound, window, trace, key) > 0 ==> key in After(bound, window, trace)
  {
    if trace != [] {
      EntryFacts(bound, window, trace[..|trace| - 1], key);
    }
  }

  // ---------------------------------------------------------------- when a message passes

  // When a message of the key last passed.
  function LastPass(bound: Bound, window: int, trace: seq<Event>, key: Key): Option<int> {
    if trace == [] then None
    else
      var n := |trace| - 1;
      if trace[n].key == key && !Last(bound, window, trace).muted then Some(trace[n].now)
      else LastPass(bound, window, trace[..n], key)
  }

  // The messages of the key that were muted since.
  function MutedSince(bound: Bound, window: int, trace: seq<Event>, key: Key): nat {
    if trace == [] then 0
    else
      var n := |trace| - 1;
      if trace[n].key != key then MutedSince(bound, window, trace[..n], key)
      else if Last(bound, window, trace).muted then MutedSince(bound, window, trace[..n], key) + 1
      else 0
  }

  lemma {:induction false} EntryIsLastPass(bound: Bound, window: int, trace: seq<Event>, key: Key)
    ensures var m := After(bound, window, trace);
            key in m ==>
              && LastPass(bound, window, trace, key) == Some(m[key].lastLogged)
              && MutedSince(bound, window, trace, key) == m[key].suppressed
    ensures bound.Unbounded? ==> (LastPass(bound, window, trace, key).Some? ==> key in After(bound, window, trace))
  {
    if trace != [] {
      EntryIsLastPass(bound, window, trace[..|trace| - 1], key);
    }
  }

  /** With the map bounded or not, on any clock: a message passes exactly when its key is not
      remembered, or it comes at least the window, if that is positive, after the last message
      of its key that passed. It then reports the messages of the key muted in between. */
  lemma PassesIff(bound: Bound, window: int, trace: seq<Event>, i: nat)
    requires i < |trace|
    ensures var before, e := trace[..i], trace[i];
            var last := LastPass(bound, window, before, e.key);
            var known := e.key in KeysAfter(bound, before);
            && (known ==> last.Some?)
            && (PassesAt(bound, window, trace, i) <==> !known || (window > 0 && e.now - last.value >= window))
            && Last(bound, window, trace[..i + 1]).report ==
                 if known && PassesAt(bound, window, trace, i) then MutedSince(bound, window, before, e.key) else 0
  {
    assert trace[..i + 1][..i] == trace[..i];
    KeysAgree(bound, window, trace[..i]);
    EntryIsLastPass(bound, window, trace[..i], trace[i].key);
  }

  /** Without evictions: the first message of a key passes, and then each that comes at least
      the window after the last that passed; none ever again if the window is not positive. */
  lemma UnboundedPassesIff(window: int, trace: seq<Event>, i: nat)
    requires i < |trace|
    ensures var last := LastPass(Unbounded, window, trace[..i], trace[i].key);
            PassesAt(Unbounded, window, trace, i) <==>
              last.None? || (window > 0 && trace[i].now - last.value >= window)
  {
    PassesIff(Unbounded, window, trace, i);
    KeysAgree(Unbounded, window, trace[..i]);
    EntryIsLastPass(Unbounded, window, trace[..i], trace[i].key);
  }

  // ---------------------------------------------------------------- eviction

  // Equal counts mean the bounded run has waited at least as long since its last pass.
  predicate AheadOrEven(b: Entries, pb: nat, u: Entries, pu: nat, key: Key) {
    pb > pu || (pb == pu && (key in b ==> key in u && b[key].lastLogged <= u[key].lastLogged))
  }

  function Gain(v: Verdict, e: Event, key: Key): nat {
    if e.key == key && !v.muted then 1 else 0
  }

  lemma StepStaysAhead(n: nat, window: int, b: Entries, pb: nat, u: Entries, pu: nat, key: Key, e: Event)
    requires AheadOrEven(b, pb, u, pu, key)
    requires key in b ==> pb > 0 && b[key].lastLogged <= e.now
    requires key in u ==> u[key].lastLogged <= e.now
    requires pu > 0 ==> key in u
    ensures var vb, vu := Run(b, AtMost(n), window, e), Run(u, Unbounded, window, e);
            AheadOrEven(vb.entries, pb + Gain(vb, e, key), vu.entries, pu + Gain(vu, e, key), key)
  {
  }

  lemma {:induction false} StaysAhead(n: nat, window: int, trace: seq<Event>, key: Key)
    requires Monotone(trace)
    ensures AheadOrEven(After(AtMost(n), window, trace), Passes(AtMost(n), window, trace, key),
                        After(Unbounded, window, trace), Passes(Unbounded, window, trace, key), key)
  {
    if trace != [] {
      var k := |trace| - 1;
      var before, e := trace[..k], trace[k];
      StaysAhead(n, window, before, key);
      EntryFacts(AtMost(n), window, before, key);
      EntryFacts(Unbounded, window, before, key);
      StepStaysAhead(n, window, After(AtMost(n), window, before), Passes(AtMost(n), window, before, key),
                     After(Unbounded, window, before), Passes(Unbounded, window, before, key), key, e);
    }
  }

  /** Eviction is safe in the greedy sense: for every key and every prefix of a trace, the
      bounded processor has let at least as many messages of the key through as one that
      never evicts. So its k-th passing message comes no later. */
  lemma EvictionNeverLosesPasses(n: nat, window: int, trace: seq<Event>, key: Key, i: nat)
    requires Monotone(trace) && i <= |trace|
    ensures Passes(AtMost(n), window, trace[..i], key) >= Passes(Unbounded, window, trace[..i], key)
  {
    MonotonePrefix(trace, i);
    StaysAhead(n, window, trace[..i], key);
  }

  // ---------------------------------------------------------------- message by message

  /** Every message that passes without eviction also passes with it. */
  ghost predicate Included(n: nat, window: int) {
    forall trace: seq<Event>, i: nat ::
      Monotone(trace) && i < |trace| && PassesAt(Unbounded, window, trace, i) ==> PassesAt(AtMost(n), window, trace, i)
  }

  // The bounded run never remembers a later pass than the unbounded one.
  predicate NoLater(b: Entries, u: Entries, window: int, key: Key) {
    key in b ==> key in u && (window > 0 ==> b[key].lastLogged <= u[key].lastLogged)
  }

  lemma NarrowStep(n: nat, window: int, b: Entries, u: Entries, key: Key, e: Event)
    requires window <= 1 && NoLater(b, u, window, key)
    requires key in b ==> b[key].lastLogged <= e.now
    requires key in u ==> u[key].lastLogged <= e.now
    ensures NoLater(Run(b, AtMost(n), window, e).entries, Run(u, Unbounded, window, e).entries, window, key)
  {
  }

  lemma {:induction false} NarrowWindow(n: nat, window: int, trace: seq<Event>, key: Key)
    requires Monotone(trace) && window <= 1
    ensures NoLater(After(AtMost(n), window, trace), After(Unbounded, window, trace), window, key)
  {
    if trace != [] {
      var k := |trace| - 1;
      var before, e := trace[..k], trace[k];
      NarrowWindow(n, window, before, key);
      EntryFacts(AtMost(n), window, before, key);
      EntryFacts(Unbounded, window, before, key);
      NarrowStep(n, window, After(AtMost(n), window, before), After(Unbounded, window, before), key, e);
    }
  }

  lemma NarrowWindowIncluded(n: nat, window: int)
    requires window <= 1
    ensures Included(n, window)
  {
    forall trace: seq<Event>, i: nat | Monotone(trace) && i < |trace| && PassesAt(Unbounded, window, trace, i)
      ensures PassesAt(AtMost(n), window, trace, i)
    {
      var before := trace[..i];
      assert trace[..i + 1][..i] == before;
      MonotonePrefix(trace, i);
      NarrowWindow(n, window, before, trace[i].key);
    }
  }

  lemma OneMore(bound: Bound, window: int, trace: seq<Event>, e: Event)
    ensures After(bound, window, trace + [e]) == Run(After(bound, window, trace), bound, window, e).entries
    ensures PassesAt(bound, window, trace + [e], |trace|) == !Run(After(bound, window, trace), bound, window, e).muted
  {
    assert (trace + [e])[..|trace|] == trace && (trace + [e])[..|trace| + 1] == trace + [e];
  }

  // A key seen at time 0 and 1 passes when its window ends iff time 0 is remembered.
  lemma OneTickLater(bound: Bound, window: int, f: seq<Event>)
    requires window >= 2
    requires var m := After(bound, window, f); "" in m ==> m[""].lastLogged == 0
    ensures PassesAt(bound, window, f + [Event("", 1)] + [Event("", window)], |f| + 1)
        <==> "" in After(bound, window, f)
  {
    OneMore(bound, window, f, Event("", 1));
    OneMore(bound, window, f + [Event("", 1)], Event("", window));
  }

  lemma Excludes(n: nat, window: int, trace: seq<Event>, i: nat)
    requires Monotone(trace) && i < |trace|
    requires PassesAt(Unbounded, window, trace, i) && !PassesAt(AtMost(n), window, trace, i)
    ensures !Included(n, window)
  {
  }

  /** The trace that tells them apart: a key passes, n others evict it, it passes again one
      tick later, and is then muted at the instant its first window ends. */
  lemma WideWindowExcludes(n: nat, window: int)
    requires n > 0 && window >= 2
    ensures !Included(n, window)
  {
    var f := Fill(1, n);
    var t1 := f + [Event("", 1)];
    MonotoneExtends(f, Event("", 1));
    MonotoneExtends(t1, Event("", window));
    KeysAgree(AtMost(n), window, f);
    FillEvicts(n, 1);
    FillEntry(window, n);
    OneTickLater(AtMost(n), window, f);
    OneTickLater(Unbounded, window, f);
    Excludes(n, window, t1 + [Event("", window)], n + 2);
  }

  lemma {:induction false} FillEntry(window: int, k: nat)
    ensures var u := After(Unbounded, window, Fill(1, k)); "" in u && u[""].lastLogged == 0
  {
    if k > 0 {
      FillEntry(window, k - 1);
      assert Fill(1, k)[..k] == Fill(1, k - 1);
    } else {
      assert Fill(1, 0)[..0] == [];
    }
  }

  /** A few extra messages are NOT always the worst case: message by message, eviction can
      mute what would have passed, exactly when the window is longer than one tick. */
  lemma IncludedIff(n: nat, window: int)
    requires n > 0
    ensures Included(n, window) <==> window <= 1
  {
    if window <= 1 {
      NarrowWindowIncluded(n, window);
    } else {
      WideWindowExcludes(n, window);
    }
  }

  // ---------------------------------------------------------------- accounting

  function Muted(bound: Bound, window: int, trace: seq<Event>, key: Key): nat {
    if trace == [] then 0
    else
      var n := |trace| - 1;
      Muted(bound, window, trace[..n], key) +
      (if trace[n].key == key && Last(bound, window, trace).muted then 1 else 0)
  }

  function Reported(bound: Bound, window: int, trace: seq<Event>, key: Key): nat {
    if trace == [] then 0
    else
      var n := |trace| - 1;
      Reported(bound, window, trace[..n], key) +
      (if trace[n].key == key then Last(bound, window, trace).report else 0)
  }

  // The suppressions forgotten by evictions.
  function Forgotten(bound: Bound, window: int, trace: seq<Event>, key: Key): nat {
    if trace == [] then 0
    else
      var n := |trace| - 1;
      var before := After(bound, window, trace[..n]);
      Forgotten(bound, window, trace[..n], key) +
      (if key in before && trace[n].key !in before && IsFull(bound, |before|) then before[key].suppressed else 0)
  }

  /** Every muted message of a key is reported when the key passes again, is still pending
      in its entry, or was forgotten by an eviction. */
  lemma {:induction false} SuppressionsAccounted(bound: Bound, window: int, trace: seq<Event>, key: Key)
    ensures var m := After(bound, window, trace);
            Muted(bound, window, trace, key) ==
              Reported(bound, window, trace, key) + Forgotten(bound, window, trace, key) +
              (if key in m then m[key].suppressed else 0)
  {
    if trace != [] {
      SuppressionsAccounted(bound, window, trace[..|trace| - 1], key);
    }
  }
}
