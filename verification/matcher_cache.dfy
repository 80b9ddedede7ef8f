/** The bounded cache of compiled matchers (debug/debug.go, New), shared by concurrent
    callers without a lock: each Load, LoadOrStore and counter operation is atomic, and
    other callers may act between any two of them. */
module MatcherCache {

  const MAX_CACHED: nat := 1024

  // The expressions newMatchers compiles for a component and an output.
  datatype Matchers = Compiled(component: string, output: string)

  function Key(component: string, output: string): string {
    component + "\0" + output
  }

  datatype Caller =
    | Idle
    | Loading(c: string, o: string)
    | Checking(c: string, o: string)                 // missed, own matchers compiled
    | Storing(c: string, o: string)                  // saw room in the cache
    | Counting(c: string, o: string)                 // stored own matchers
    | Got(c: string, o: string, m: Matchers)

  datatype State = State(cache: map<string, Matchers>, size: nat, callers: seq<Caller>)

  // Caller t begins New(c, o), or takes its next atomic step.
  datatype Action = Begin(t: nat, c: string, o: string) | Next(t: nat)

  function Advance(cache: map<string, Matchers>, size: nat, caller: Caller): (map<string, Matchers>, nat, Caller) {
    match caller
    case Loading(c, o) =>
      if Key(c, o) in cache then (cache, size, Got(c, o, cache[Key(c, o)])) else (cache, size, Checking(c, o))
    case Checking(c, o) =>
      if size < MAX_CACHED then (cache, size, Storing(c, o)) else (cache, size, Got(c, o, Compiled(c, o)))
    case Storing(c, o) =>
      if Key(c, o) in cache then (cache, size, Got(c, o, cache[Key(c, o)]))
      else (cache[Key(c, o) := Compiled(c, o)], size, Counting(c, o))
    case Counting(c, o) => (cache, size + 1, Got(c, o, Compiled(c, o)))
    case _ => (cache, size, caller)
  }

  function Step(s: State, a: Action): (r: State)
    ensures |r.callers| == |s.callers|
  {
    match a
    case Begin(t, c, o) =>
      if t < |s.callers| && (s.callers[t].Idle? || s.callers[t].Got?)
      then s.(callers := s.callers[t := Loading(c, o)])
      else s
    case Next(t) =>
      if t < |s.callers| then
        var (cache, size, caller) := Advance(s.cache, s.size, s.callers[t]);
        State(cache, size, s.callers[t := caller])
      else s
  }

  function Run(s: State, actions: seq<Action>): (r: State)
    ensures |r.callers| == |s.callers|
    decreases |actions|
  {
    if actions == [] then s else Run(Step(s, actions[0]), actions[1..])
  }

  predicate Fresh(s: State) {
    s.cache == map[] && s.size == 0 && forall t :: 0 <= t < |s.callers| ==> s.callers[t].Idle?
  }

  // ---------------------------------------------------------------- the size bound

  function CountWhere(callers: seq<Caller>, p: Caller -> bool): nat {
    if callers == [] then 0 else (if p(callers[0]) then 1 else 0) + CountWhere(callers[1..], p)
  }

  lemma {:induction false} CountUpdate(callers: seq<Caller>, t: nat, c: Caller, p: Caller -> bool)
    requires t < |callers|
    ensures CountWhere(callers[t := c], p) + (if p(callers[t]) then 1 else 0)
         == CountWhere(callers, p) + (if p(c) then 1 else 0)
  {
    if t == 0 {
      assert callers[t := c][1..] == callers[1..];
    } else {
      assert callers[t := c][1..] == callers[1..][t - 1 := c];
      CountUpdate(callers[1..], t - 1, c, p);
    }
  }

  lemma {:induction false} CountAtMost(callers: seq<Caller>, p: Caller -> bool)
    ensures CountWhere(callers, p) <= |callers|
  {
    if callers != [] {
      CountAtMost(callers[1..], p);
    }
  }

  predicate IsCounting(c: Caller) {
    c.Counting?
  }

  predicate IsCommitted(c: Caller) {
    c.Storing? || c.Counting?
  }

  predicate SizeInv(s: State) {
    && |s.cache| == s.size + CountWhere(s.callers, IsCounting)
    && (s.cache == map[] || |s.callers| > 0)
    && s.size + CountWhere(s.callers, IsCommitted) <= MAX_CACHED - 1 + |s.callers|
  }

  lemma CacheGrows(m: map<string, Matchers>, k: string, v: Matchers)
    requires k !in m
    ensures |m[k := v]| == |m| + 1
  {
    assert m[k := v].Keys == m.Keys + {k};
    assert |m.Keys| == |m| && |m[k := v].Keys| == |m[k := v]|;
  }

  lemma StepKeepsSize(s: State, a: Action)
    requires SizeInv(s)
    ensures SizeInv(Step(s, a))
  {
    var t := a.t;
    if t < |s.callers| {
      var c := Step(s, a).callers[t];
      CountUpdate(s.callers, t, c, IsCounting);
      CountUpdate(s.callers, t, c, IsCommitted);
      CountAtMost(s.callers[t := c], IsCommitted);
      if a.Next? && s.callers[t].Storing? && c.Counting? {
        CacheGrows(s.cache, Key(c.c, c.o), Compiled(c.c, c.o));
      }
    }
  }

  lemma {:induction false} RunKeepsSize(s: State, actions: seq<Action>)
    requires SizeInv(s)
    ensures SizeInv(Run(s, actions))
    decreases |actions|
  {
    if actions != [] {
      StepKeepsSize(s, actions[0]);
      RunKeepsSize(Step(s, actions[0]), actions[1..]);
    }
  }

  lemma {:induction false} CommittedCover(callers: seq<Caller>)
    ensures CountWhere(callers, IsCounting) <= CountWhere(callers, IsCommitted)
  {
    if callers != [] {
      CommittedCover(callers[1..]);
    }
  }

  lemma {:induction false} NoneIdle(callers: seq<Caller>)
    requires forall t :: 0 <= t < |callers| ==> callers[t].Idle?
    ensures CountWhere(callers, IsCounting) == 0 && CountWhere(callers, IsCommitted) == 0
  {
    if callers != [] {
      NoneIdle(callers[1..]);
    }
  }

  /** With T concurrent callers, each calling New any number of times, no interleaving
      makes the cache larger than MAX_CACHED + T - 1 entries. */
  lemma CacheStaysBounded(s: State, actions: seq<Action>)
    requires Fresh(s) && |s.callers| > 0
    ensures |Run(s, actions).cache| <= MAX_CACHED + |s.callers| - 1
  {
    NoneIdle(s.callers);
    RunKeepsSize(s, actions);
    CommittedCover(Run(s, actions).callers);
  }

  // ---------------------------------------------------------------- the bound is attained

  // Some actions lead from s to r.
  ghost predicate Reaches(s: State, r: State) {
    exists actions :: Run(s, actions) == r
  }

  lemma ReachesStep(s: State, r: State, a: Action)
    requires Reaches(s, r)
    ensures Reaches(s, Step(r, a))
  {
    var actions :| Run(s, actions) == r;
    RunConcat(s, actions, [a]);
    assert Run(r, [a]) == Step(r, a) by {
      assert [a][1..] == [];
    }
    assert Run(s, actions + [a]) == Step(r, a);
  }

  // As many different components as one likes.
  function Name(i: nat): (c: string)
    ensures |c| == i
  {
    seq(i, _ => 'x')
  }

  function CacheOf(k: nat): map<string, Matchers> {
    if k == 0 then map[] else CacheOf(k - 1)[Key(Name(k - 1), "") := Compiled(Name(k - 1), "")]
  }

  lemma {:induction false} CacheOfSize(k: nat)
    ensures |CacheOf(k)| == k && forall i: nat :: Key(Name(i), "") in CacheOf(k) <==> i < k
  {
    if k > 0 {
      CacheOfSize(k - 1);
      assert forall i: nat :: |Key(Name(i), "")| == i + 1;
      CacheGrows(CacheOf(k - 1), Key(Name(k - 1), ""), Compiled(Name(k - 1), ""));
    }
  }

  predicate Free(c: Caller) {
    c.Idle? || c.Got?
  }

  // A caller with a new name misses, and sees room.
  lemma SeesRoom(s: State, q: State, t: nat, c: string)
    requires Reaches(s, q) && t < |q.callers| && Free(q.callers[t]) && Key(c, "") !in q.cache && q.size < MAX_CACHED
    ensures Reaches(s, q.(callers := q.callers[t := Storing(c, "")]))
  {
    var q1 := Step(q, Begin(t, c, ""));
    var q2 := Step(q1, Next(t));
    ReachesStep(s, q, Begin(t, c, ""));
    ReachesStep(s, q1, Next(t));
    ReachesStep(s, q2, Next(t));
    assert Step(q2, Next(t)) == q.(callers := q.callers[t := Storing(c, "")]);
  }

  // And stores, if nobody did meanwhile.
  lemma Stores(s: State, q: State, t: nat, c: string)
    requires Reaches(s, q) && t < |q.callers| && q.callers[t] == Storing(c, "") && Key(c, "") !in q.cache
    ensures Reaches(s, State(q.cache[Key(c, "") := Compiled(c, "")], q.size, q.callers[t := Counting(c, "")]))
  {
    ReachesStep(s, q, Next(t));
  }

  // One undisturbed call of caller 0 for a new name.
  lemma CallAdds(s: State, r: State, k: nat)
    requires Reaches(s, r) && r.cache == CacheOf(k) && r.size == k < MAX_CACHED && |r.callers| > 0 && Free(r.callers[0])
    ensures Reaches(s, State(CacheOf(k + 1), k + 1, r.callers[0 := Got(Name(k), "", Compiled(Name(k), ""))]))
  {
    CacheOfSize(k);
    var c := Name(k);
    var q := r.(callers := r.callers[0 := Storing(c, "")]);
    SeesRoom(s, r, 0, c);
    Stores(s, q, 0, c);
    var p := State(CacheOf(k + 1), k, q.callers[0 := Counting(c, "")]);
    ReachesStep(s, p, Next(0));
    assert p.callers[0 := Got(c, "", Compiled(c, ""))] == r.callers[0 := Got(c, "", Compiled(c, ""))];
  }

  lemma {:induction false} FillUp(s: State, k: nat) returns (r: State)
    requires Fresh(s) && |s.callers| > 0 && k <= MAX_CACHED
    ensures Reaches(s, r) && r.cache == CacheOf(k) && r.size == k && |r.callers| == |s.callers|
    ensures forall t :: 0 <= t < |r.callers| ==> Free(r.callers[t])
  {
    if k == 0 {
      r := s;
      assert Run(s, []) == s;
    } else {
      var q := FillUp(s, k - 1);
      CallAdds(s, q, k - 1);
      r := State(CacheOf(k), k, q.callers[0 := Got(Name(k - 1), "", Compiled(Name(k - 1), ""))]);
    }
  }

  // The first j callers have all seen the last free place.
  lemma {:induction false} AllSeeRoom(s: State, q: State, n: nat, j: nat) returns (r: State)
    requires Reaches(s, q) && q.cache == CacheOf(n) && q.size == n < MAX_CACHED && j <= |q.callers|
    requires forall t :: 0 <= t < |q.callers| ==> Free(q.callers[t])
    ensures Reaches(s, r) && r.cache == CacheOf(n) && r.size == n && |r.callers| == |q.callers|
    ensures forall t :: 0 <= t < |r.callers| ==>
              r.callers[t] == if t < j then Storing(Name(n + t), "") else q.callers[t]
    decreases j
  {
    if j == 0 {
      r := q;
    } else {
      var p := AllSeeRoom(s, q, n, j - 1);
      var t := j - 1;
      CacheOfSize(n);
      SeesRoom(s, p, t, Name(n + t));
      r := p.(callers := p.callers[t := Storing(Name(n + t), "")]);
    }
  }

  // Then the first j callers store before anyone counts.
  lemma {:induction false} AllStore(s: State, q: State, n: nat, j: nat) returns (r: State)
    requires Reaches(s, q) && q.cache == CacheOf(n) && j <= |q.callers|
    requires forall t :: 0 <= t < |q.callers| ==> q.callers[t] == Storing(Name(n + t), "")
    ensures Reaches(s, r) && r.cache == CacheOf(n + j) && |r.callers| == |q.callers|
    ensures forall t :: j <= t < |r.callers| ==> r.callers[t] == q.callers[t]
    decreases j
  {
    if j == 0 {
      r := q;
    } else {
      var p := AllStore(s, q, n, j - 1);
      CacheOfSize(n + j - 1);
      var c := Name(n + j - 1);
      Stores(s, p, j - 1, c);
      r := State(p.cache[Key(c, "") := Compiled(c, "")], p.size, p.callers[j - 1 := Counting(c, "")]);
    }
  }

  /** The bound is attained for every number of callers. */
  lemma CacheBoundAttained(t: nat)
    requires t > 0
    ensures exists s, actions :: Fresh(s) && |s.callers| == t && |Run(s, actions).cache| == MAX_CACHED + t - 1
  {
    var s := State(map[], 0, seq(t, _ => Idle));
    var q := FillUp(s, MAX_CACHED - 1);
    var p := AllSeeRoom(s, q, MAX_CACHED - 1, t);
    var r := AllStore(s, p, MAX_CACHED - 1, t);
    CacheOfSize(MAX_CACHED - 1 + t);
    var actions :| Run(s, actions) == r;
    assert Fresh(s) && |s.callers| == t && |Run(s, actions).cache| == MAX_CACHED + t - 1;
  }

  // ---------------------------------------------------------------- whose matchers

  type Names = set<(string, string)>

  /** No two of the pairs share a cache key. */
  predicate KeysDistinct(names: Names) {
    forall p, q :: p in names && q in names && Key(p.0, p.1) == Key(q.0, q.1) ==> p == q
  }

  predicate NulFree(s: string) {
    '\0' !in s
  }

  lemma NulFreeKeysDistinct(names: Names)
    requires forall p :: p in names ==> NulFree(p.0) && NulFree(p.1)
    ensures KeysDistinct(names)
  {
    forall p, q | p in names && q in names && Key(p.0, p.1) == Key(q.0, q.1)
      ensures p == q
    {
      SamePlace(p.0, p.1, q.0, q.1);
    }
  }

  lemma SamePlace(c: string, o: string, c': string, o': string)
    requires NulFree(c) && NulFree(c') && Key(c, o) == Key(c', o')
    ensures c == c' && o == o'
  {
    var k := Key(c, o);
    assert k[|c|] == '\0' && k[|c'|] == '\0';
    assert forall i :: 0 <= i < |c| ==> k[i] == c[i];
    assert forall i :: 0 <= i < |c'| ==> k[i] == c'[i];
    assert |c| == |c'|;
    assert k[..|c|] == c && k[..|c'|] == c' && k[|c| + 1..] == o && k[|c'| + 1..] == o';
  }

  predicate Within(names: Names, c: string, o: string) {
    (c, o) in names
  }

  predicate CallerInv(names: Names, caller: Caller) {
    match caller
    case Idle => true
    case Got(c, o, m) => Within(names, c, o) && m == Compiled(c, o)
    case Loading(c, o) => Within(names, c, o)
    case Checking(c, o) => Within(names, c, o)
    case Storing(c, o) => Within(names, c, o)
    case Counting(c, o) => Within(names, c, o)
  }

  predicate OwnInv(names: Names, s: State) {
    && CacheInv(names, s.cache)
    && (forall t :: 0 <= t < |s.callers| ==> CallerInv(names, s.callers[t]))
  }

  predicate CacheInv(names: Names, cache: map<string, Matchers>) {
    forall k :: k in cache ==>
      Within(names, cache[k].component, cache[k].output) && Key(cache[k].component, cache[k].output) == k
  }

  lemma SameKeySameNames(names: Names, c: string, o: string, c': string, o': string)
    requires KeysDistinct(names) && Within(names, c, o) && Within(names, c', o') && Key(c, o) == Key(c', o')
    ensures c == c' && o == o'
  {
    var p, q := (c, o), (c', o');
    assert p in names && q in names && Key(p.0, p.1) == Key(q.0, q.1);
  }

  lemma AdvanceKeepsOwn(names: Names, cache: map<string, Matchers>, size: nat, caller: Caller)
    requires KeysDistinct(names) && CacheInv(names, cache) && CallerInv(names, caller)
    ensures CacheInv(names, Advance(cache, size, caller).0) && CallerInv(names, Advance(cache, size, caller).2)
  {
    if (caller.Loading? || caller.Storing?) && Key(caller.c, caller.o) in cache {
      var m := cache[Key(caller.c, caller.o)];
      SameKeySameNames(names, m.component, m.output, caller.c, caller.o);
    }
  }

  lemma StepKeepsOwn(names: Names, s: State, a: Action)
    requires KeysDistinct(names) && OwnInv(names, s)
    requires a.Begin? ==> Within(names, a.c, a.o)
    ensures OwnInv(names, Step(s, a))
  {
    if a.Next? && a.t < |s.callers| {
      AdvanceKeepsOwn(names, s.cache, s.size, s.callers[a.t]);
    }
  }

  lemma {:induction false} RunKeepsOwn(names: Names, s: State, actions: seq<Action>)
    requires KeysDistinct(names) && OwnInv(names, s)
    requires forall i :: 0 <= i < |actions| && actions[i].Begin? ==> Within(names, actions[i].c, actions[i].o)
    ensures OwnInv(names, Run(s, actions))
    decreases |actions|
  {
    if actions != [] {
      StepKeepsOwn(names, s, actions[0]);
      RunKeepsOwn(names, Step(s, actions[0]), actions[1..]);
    }
  }

  /** Every caller gets exactly the matchers newMatchers would compile for its own names. */
  ghost predicate AlwaysOwn(names: Names) {
    forall s: State, actions: seq<Action> ::
      Fresh(s) && (forall i :: 0 <= i < |actions| && actions[i].Begin? ==> Within(names, actions[i].c, actions[i].o))
      ==> AllOwn(Run(s, actions))
  }

  predicate AllOwn(s: State) {
    forall t :: 0 <= t < |s.callers| && s.callers[t].Got? ==> s.callers[t].m == Compiled(s.callers[t].c, s.callers[t].o)
  }

  lemma RunCons(s: State, a: Action, rest: seq<Action>)
    ensures Run(s, [a] + rest) == Run(Step(s, a), rest)
  {
    assert ([a] + rest)[1..] == rest;
  }

  /** A call of New by caller 0, from Load to the counter, with nobody in between. */
  function Call(c: string, o: string): seq<Action> {
    [Begin(0, c, o)] + ([Next(0)] + ([Next(0)] + ([Next(0)] + ([Next(0)] + []))))
  }

  lemma CallRuns(s: State, c: string, o: string)
    ensures Run(s, Call(c, o)) == Step(Step(Step(Step(Step(s, Begin(0, c, o)), Next(0)), Next(0)), Next(0)), Next(0))
  {
    var n := Next(0);
    var s0 := Step(s, Begin(0, c, o));
    var s1 := Step(s0, n);
    var s2 := Step(s1, n);
    var s3 := Step(s2, n);
    RunCons(s, Begin(0, c, o), [n] + ([n] + ([n] + ([n] + []))));
    RunCons(s0, n, [n] + ([n] + ([n] + [])));
    RunCons(s1, n, [n] + ([n] + []));
    RunCons(s2, n, [n] + []);
    RunCons(s3, n, []);
  }

  lemma {:induction false} RunConcat(s: State, a: seq<Action>, b: seq<Action>)
    ensures Run(s, a + b) == Run(Run(s, a), b)
    decreases |a|
  {
    if a == [] {
      assert a + b == b;
    } else {
      assert (a + b)[1..] == a[1..] + b;
      RunConcat(Step(s, a[0]), a[1..], b);
    }
  }

  // One caller asks for p, and then for q.
  lemma CollisionGivesOthers(p: (string, string), q: (string, string))
    requires p != q && Key(p.0, p.1) == Key(q.0, q.1)
    ensures !AllOwn(Run(State(map[], 0, [Idle]), Call(p.0, p.1) + Call(q.0, q.1)))
  {
    var s := State(map[], 0, [Idle]);
    var k, m := Key(p.0, p.1), Compiled(p.0, p.1);
    var after := State(map[k := m], 1, [Got(p.0, p.1, m)]);
    CallRuns(s, p.0, p.1);
    assert Run(s, Call(p.0, p.1)) == after;
    CallRuns(after, q.0, q.1);
    assert Run(after, Call(q.0, q.1)).callers[0] == Got(q.0, q.1, m);
    RunConcat(s, Call(p.0, p.1), Call(q.0, q.1));
  }

  /** Callers always get their own matchers exactly when no two pairs of names in use share
      a key; names without NUL characters never do. */
  lemma AlwaysOwnIff(names: Names)
    ensures AlwaysOwn(names) <==> KeysDistinct(names)
    ensures (forall p :: p in names ==> NulFree(p.0) && NulFree(p.1)) ==> AlwaysOwn(names)
  {
    if KeysDistinct(names) {
      forall s: State, actions: seq<Action> |
        Fresh(s) && (forall i :: 0 <= i < |actions| && actions[i].Begin? ==> Within(names, actions[i].c, actions[i].o))
        ensures AllOwn(Run(s, actions))
      {
        RunKeepsOwn(names, s, actions);
        assert forall t :: 0 <= t < |s.callers| ==> CallerInv(names, Run(s, actions).callers[t]);
      }
    } else {
      var p, q :| p in names && q in names && Key(p.0, p.1) == Key(q.0, q.1) && p != q;
      CollisionGivesOthers(p, q);
      var actions := Call(p.0, p.1) + Call(q.0, q.1);
      assert Fresh(State(map[], 0, [Idle]));
      assert forall i :: 0 <= i < |actions| && actions[i].Begin? ==> Within(names, actions[i].c, actions[i].o);
    }
    if forall p :: p in names ==> NulFree(p.0) && NulFree(p.1) {
      NulFreeKeysDistinct(names);
    }
  }

  // ---------------------------------------------------------------- what it is for

  /** Once a pair's matchers are cached nothing replaces them, and a caller who then begins
      with the pair is given them without compiling its own, in any interleaving. */
  lemma {:induction false} HitIsShared(s: State, actions: seq<Action>, t: nat, c: string, o: string)
    requires t < |s.callers| && Key(c, o) in s.cache
    requires s.callers[t] == Loading(c, o) || s.callers[t] == Got(c, o, s.cache[Key(c, o)])
    requires forall i :: 0 <= i < |actions| && actions[i].t == t ==> actions[i].Next?
    ensures var r := Run(s, actions);
            && Key(c, o) in r.cache && r.cache[Key(c, o)] == s.cache[Key(c, o)]
            && (r.callers[t] == s.callers[t] || r.callers[t] == Got(c, o, s.cache[Key(c, o)]))
    decreases |actions|
  {
    if actions != [] {
      HitIsShared(Step(s, actions[0]), actions[1..], t, c, o);
    }
  }

  // ---------------------------------------------------------------- New itself

  class Cache {
    var entries: map<string, Matchers>
    var size: nat

    constructor ()
      ensures entries == map[] && size == 0
    {
      entries, size := map[], 0;
    }

    /** New without interference: a whole call, as the steps above run it. */
    method New(c: string, o: string) returns (m: Matchers)
      modifies this
      ensures var r := Run(State(old(entries), old(size), [Idle]), Call(c, o));
              entries == r.cache && size == r.size && r.callers == [Got(c, o, m)]
    {
      CallRuns(State(entries, size, [Idle]), c, o);
      var key := c + "\0" + o;
      if key in entries {
        return entries[key];
      }
      m := Compiled(c, o);
      if size < MAX_CACHED {
        entries := entries[key := m];
        size := size + 1;
      }
    }
  }
}
