/** Traces of messages as the per-key processors see them (processor/dedup.go,
    processor/sample.go): a key and a clock reading, and the bounded key map that both
    processors empty completely when a new key finds it full. */
module KeyTrace {

  type Key = string

  datatype Event = Event(key: Key, now: int)

  // The code bounds its maps; the unbounded map is the specification to compare with.
  datatype Bound = Unbounded | AtMost(n: nat)

  predicate IsFull(bound: Bound, size: nat) {
    bound.AtMost? && size >= bound.n
  }

  // An event no earlier than the trace's last one.
  predicate Follows(trace: seq<Event>, now: int) {
    trace == [] || trace[|trace| - 1].now <= now
  }

  /** A clock that never goes backwards. */
  predicate Monotone(trace: seq<Event>) {
    trace == [] || (Monotone(trace[..|trace| - 1]) && Follows(trace[..|trace| - 1], trace[|trace| - 1].now))
  }

  lemma MonotoneExtends(trace: seq<Event>, e: Event)
    requires Monotone(trace) && Follows(trace, e.now)
    ensures Monotone(trace + [e])
  {
    assert (trace + [e])[..|trace|] == trace;
  }

  lemma {:induction false} MonotonePrefix(trace: seq<Event>, k: nat)
    requires Monotone(trace) && k <= |trace|
    ensures Monotone(trace[..k])
    decreases |trace|
  {
    if k == |trace| {
      assert trace[..k] == trace;
    } else {
      var before := trace[..|trace| - 1];
      MonotonePrefix(before, k);
      assert before[..k] == trace[..k];
    }
  }

  // A new key evicts everything when the map is full.
  function NextKeys(bound: Bound, keys: set<Key>, key: Key): set<Key> {
    if key in keys then keys
    else if IsFull(bound, |keys|) then {key}
    else keys + {key}
  }

  /** The key set after a trace. */
  function KeysAfter(bound: Bound, trace: seq<Event>): set<Key> {
    if trace == [] then {}
    else NextKeys(bound, KeysAfter(bound, trace[..|trace| - 1]), trace[|trace| - 1].key)
  }

  lemma {:induction false} KeysBounded(n: nat, trace: seq<Event>)
    requires n > 0
    ensures |KeysAfter(AtMost(n), trace)| <= n
  {
    if trace != [] {
      KeysBounded(n, trace[..|trace| - 1]);
    }
  }

  lemma OneMoreKey(bound: Bound, trace: seq<Event>, e: Event)
    ensures KeysAfter(bound, trace + [e]) == NextKeys(bound, KeysAfter(bound, trace), e.key)
  {
    assert (trace + [e])[..|trace|] == trace;
  }

  function Filler(i: nat): (k: Key)
    ensures |k| == i + 1
  {
    seq(i + 1, _ => 'x')
  }

  /** The empty key m times, then k other keys, all at time 0. */
  function Fill(m: nat, k: nat): (t: seq<Event>)
    requires m > 0
    ensures |t| == m + k && Monotone(t) && t[|t| - 1].now == 0
  {
    if k > 0 then
      MonotoneExtends(Fill(m, k - 1), Event(Filler(k - 1), 0));
      Fill(m, k - 1) + [Event(Filler(k - 1), 0)]
    else if m > 1 then
      MonotoneExtends(Fill(m - 1, 0), Event("", 0));
      Fill(m - 1, 0) + [Event("", 0)]
    else
      assert [Event("", 0)][..0] == [];
      [Event("", 0)]
  }

  function Fillers(k: nat): (s: set<Key>)
    ensures |s| == k && forall x :: x in s ==> 1 <= |x| <= k
  {
    if k == 0 then {} else Fillers(k - 1) + {Filler(k - 1)}
  }

  lemma {:induction false} RepeatedKeys(n: nat, m: nat)
    requires m > 0 && n > 0
    ensures KeysAfter(AtMost(n), Fill(m, 0)) == {""}
  {
    if m > 1 {
      RepeatedKeys(n, m - 1);
      OneMoreKey(AtMost(n), Fill(m - 1, 0), Event("", 0));
    } else {
      assert [] + [Event("", 0)] == Fill(1, 0);
      OneMoreKey(AtMost(n), [], Event("", 0));
    }
  }

  // A filler joins the set, or replaces it when it is full.
  lemma NextFiller(n: nat, k: nat)
    requires k < n
    ensures NextKeys(AtMost(n), {""} + Fillers(k), Filler(k))
         == if k + 1 < n then {""} + Fillers(k + 1) else {Filler(k)}
  {
    FillSize(k);
    assert Filler(k) !in {""} + Fillers(k);
    assert Fillers(k + 1) == Fillers(k) + {Filler(k)};
  }

  lemma {:induction false} FillGrows(n: nat, m: nat, k: nat)
    requires m > 0 && k < n
    ensures KeysAfter(AtMost(n), Fill(m, k)) == {""} + Fillers(k)
    decreases k
  {
    if k == 0 {
      RepeatedKeys(n, m);
    } else {
      FillGrows(n, m, k - 1);
      OneMoreKey(AtMost(n), Fill(m, k - 1), Event(Filler(k - 1), 0));
      NextFiller(n, k - 1);
    }
  }

  lemma FillSize(k: nat)
    ensures |{""} + Fillers(k)| == k + 1
  {
    assert {""} !! Fillers(k);
  }

  /** n further keys are enough to evict the empty key from a map of n entries. */
  lemma FillEvicts(n: nat, m: nat)
    requires n > 0 && m > 0
    ensures "" !in KeysAfter(AtMost(n), Fill(m, n))
  {
    FillGrows(n, m, n - 1);
    OneMoreKey(AtMost(n), Fill(m, n - 1), Event(Filler(n - 1), 0));
    NextFiller(n, n - 1);
  }
}
