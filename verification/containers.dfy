/** Who owns which backing array (sypl.go, with.go, output/output.go). Every logger and
    every output keeps its outputs, tags and processors in slices; the getters hand those
    slices out, the setters append to them or replace them, and derived loggers clone them.

    The heap below maps an array's number to its full contents, spare capacity included. */
module Containers {
  import opened Text
  import opened GoSlices

  // An output, a tag or a processor: what matters here is its name.
  datatype Item = Item(id: nat, name: string)

  const ZERO := Item(0, "")

  datatype Header = Header(arr: nat, len: nat)

  type Heap = seq<seq<Item>>

  predicate ValidIn(heap: Heap, s: Header) {
    s.arr < |heap| && s.len <= |heap[s.arr]|
  }

  function View(heap: Heap, s: Header): seq<Item>
    requires ValidIn(heap, s)
  {
    heap[s.arr][..s.len]
  }

  function Zeros(n: nat): (z: seq<Item>)
    ensures |z| == n
  {
    seq(n, _ => ZERO)
  }

  /** append: what GoSlices.Append does to the arrays. */
  function AppendIn(heap: Heap, s: Header, xs: seq<Item>, slack: nat): (Heap, Header)
    requires ValidIn(heap, s)
  {
    var a := heap[s.arr];
    var n := s.len + |xs|;
    if n <= |a| then (heap[s.arr := a[..s.len] + xs + a[n..]], Header(s.arr, n))
    else (heap + [a[..s.len] + xs + Zeros(slack)], Header(|heap|, n))
  }

  function MakeIn(heap: Heap, contents: seq<Item>, slack: nat): (Heap, Header) {
    (heap + [contents + Zeros(slack)], Header(|heap|, |contents|))
  }

  // SetOutputs, SetProcessors: every element of a given name is replaced, in a copy.
  function ReplaceOne(items: seq<Item>, x: Item): (r: seq<Item>)
    ensures |r| == |items|
  {
    seq(|items|, i requires 0 <= i < |items| => if EqualFold(items[i].name, x.name) then x else items[i])
  }

  function ReplaceAll(items: seq<Item>, xs: seq<Item>): (r: seq<Item>)
    ensures |r| == |items|
  {
    if xs == [] then items else ReplaceOne(ReplaceAll(items, xs[..|xs| - 1]), xs[|xs| - 1])
  }

  // The last of the arguments that has the name.
  predicate LastNamed(xs: seq<Item>, name: string, j: int) {
    && 0 <= j < |xs| && EqualFold(name, xs[j].name)
    && forall k :: j < k < |xs| ==> !EqualFold(name, xs[k].name)
  }

  /** Every element is the last argument of its name, ignoring case, or what it was if there
      is none; nothing is added, removed or moved. */
  ghost predicate Replaced(items: seq<Item>, xs: seq<Item>, r: seq<Item>) {
    && |r| == |items|
    && (forall i, j :: 0 <= i < |items| && LastNamed(xs, items[i].name, j) ==> r[i] == xs[j])
    && (forall i :: 0 <= i < |items| && (forall j :: 0 <= j < |xs| ==> !EqualFold(items[i].name, xs[j].name)) ==>
          r[i] == items[i])
  }

  // What an element becomes always keeps its name, up to case.
  lemma {:induction false} SameNames(items: seq<Item>, xs: seq<Item>, i: nat)
    requires i < |items|
    ensures EqualFold(ReplaceAll(items, xs)[i].name, items[i].name)
    decreases |xs|
  {
    if xs != [] {
      SameNames(items, xs[..|xs| - 1], i);
    }
  }

  lemma {:induction false} LastOneWins(items: seq<Item>, xs: seq<Item>, i: nat, j: nat)
    requires i < |items| && LastNamed(xs, items[i].name, j)
    ensures ReplaceAll(items, xs)[i] == xs[j]
    decreases |xs|
  {
    var n := |xs| - 1;
    SameNames(items, xs[..n], i);
    if j < n {
      LastOneWins(items, xs[..n], i, j);
    }
  }

  lemma {:induction false} OthersStay(items: seq<Item>, xs: seq<Item>, i: nat)
    requires i < |items| && forall j :: 0 <= j < |xs| ==> !EqualFold(items[i].name, xs[j].name)
    ensures ReplaceAll(items, xs)[i] == items[i]
    decreases |xs|
  {
    if xs != [] {
      OthersStay(items, xs[..|xs| - 1], i);
    }
  }

  lemma ReplaceAllReplaces(items: seq<Item>, xs: seq<Item>)
    ensures Replaced(items, xs, ReplaceAll(items, xs))
  {
    forall i, j | 0 <= i < |items| && LastNamed(xs, items[i].name, j)
      ensures ReplaceAll(items, xs)[i] == xs[j]
    {
      LastOneWins(items, xs, i, j);
    }
    forall i | 0 <= i < |items| && (forall j :: 0 <= j < |xs| ==> !EqualFold(items[i].name, xs[j].name))
      ensures ReplaceAll(items, xs)[i] == items[i]
    {
      OthersStay(items, xs, i);
    }
  }

  // ---------------------------------------------------------------- the system

  // A slice somebody outside holds, and what it contained when it was handed over.
  datatype Held = Held(slice: Header, contents: seq<Item>)

  // The containers of all loggers and outputs; the slices the getters handed out; and the
  // slices callers made themselves, recorded with their whole arrays.
  datatype World = World(heap: Heap, owners: seq<Header>, held: seq<Held>, callers: seq<Held>)

  // Where the arguments of a variadic call come from.
  datatype Source = FromCaller(k: nat, len: nat) | FromHeld(k: nat) | FromValues(items: seq<Item>)

  datatype Op =
    | CallerMakes(contents: seq<Item>, slack: nat)
    | Get(owner: nat)                                   // GetOutputs, GetTags, GetProcessors
    | Add(owner: nat, src: Source, slack: nat)          // AddOutputs, SetTags, AddProcessors
    | Replace(owner: nat, src: Source)                  // SetOutputs, SetProcessors
    | Factory(src: Source, slack: nat)                  // New clones its arguments
    | Derive(parent: nat, slack: nat)                   // the New method, With

  function Arguments(w: World, src: Source): seq<Item>
    requires Inv(w)
  {
    match src
    case FromValues(items) => items
    case FromHeld(k) => if k < |w.held| then View(w.heap, w.held[k].slice) else []
    case FromCaller(k, len) =>
      if k < |w.callers| && len <= |w.callers[k].contents| then w.heap[w.callers[k].slice.arr][..len] else []
  }

  function Step(w: World, op: Op): World
    requires Inv(w)
  {
    match op
    case CallerMakes(contents, slack) =>
      var (heap, s) := MakeIn(w.heap, contents, slack);
      w.(heap := heap, callers := w.callers + [Held(s, heap[s.arr])])
    case Get(i) =>
      if i < |w.owners| then w.(held := w.held + [Held(w.owners[i], View(w.heap, w.owners[i]))]) else w
    case Add(i, src, slack) =>
      if i < |w.owners| then
        var (heap, s) := AppendIn(w.heap, w.owners[i], Arguments(w, src), slack);
        w.(heap := heap, owners := w.owners[i := s])
      else w
    case Replace(i, src) =>
      if i < |w.owners| then
        var (heap, s) := MakeIn(w.heap, ReplaceAll(View(w.heap, w.owners[i]), Arguments(w, src)), 0);
        w.(heap := heap, owners := w.owners[i := s])
      else w
    case Factory(src, slack) =>
      var (heap, s) := MakeIn(w.heap, Arguments(w, src), slack);
      w.(heap := heap, owners := w.owners + [s])
    case Derive(i, slack) =>
      if i < |w.owners| then
        var (heap, s) := MakeIn(w.heap, View(w.heap, w.owners[i]), slack);
        w.(heap := heap, owners := w.owners + [s])
      else w
  }

  // Every container is a valid slice of an array no other container uses.
  predicate OwnersApart(w: World) {
    && (forall i :: 0 <= i < |w.owners| ==> ValidIn(w.heap, w.owners[i]))
    && (forall i, j :: 0 <= i < j < |w.owners| ==> w.owners[i].arr != w.owners[j].arr)
  }

  // A caller's array is what the caller made it, and no container uses it.
  predicate CallerKept(w: World, c: Held) {
    && c.slice.arr < |w.heap| && w.heap[c.slice.arr] == c.contents
    && (forall i :: 0 <= i < |w.owners| ==> c.slice.arr != w.owners[i].arr)
  }

  // A slice handed out is what it was, and ends before the container it came from does.
  predicate SnapshotKept(w: World, h: Held) {
    && ValidIn(w.heap, h.slice) && View(w.heap, h.slice) == h.contents
    && (forall i :: 0 <= i < |w.owners| && h.slice.arr == w.owners[i].arr ==> h.slice.len <= w.owners[i].len)
  }

  /** No two containers share an array, none uses a caller's array, nothing handed out
      reaches past its container's length, and nothing handed out has changed. */
  predicate Inv(w: World) {
    && OwnersApart(w)
    && (forall k :: 0 <= k < |w.callers| ==> CallerKept(w, w.callers[k]))
    && (forall k :: 0 <= k < |w.held| ==> SnapshotKept(w, w.held[k]))
  }

  // Growing the heap by one array disturbs nothing, and no one uses the new array yet.
  lemma MakeKeeps(w: World, contents: seq<Item>, slack: nat)
    requires Inv(w)
    ensures var (heap, s) := MakeIn(w.heap, contents, slack);
            && Inv(w.(heap := heap))
            && s.arr == |w.heap| && ValidIn(heap, s) && View(heap, s) == contents
            && heap[s.arr] == contents + Zeros(slack)
  {
    var (heap, s) := MakeIn(w.heap, contents, slack);
    var r := w.(heap := heap);
    forall k | 0 <= k < |w.held| ensures SnapshotKept(r, w.held[k]) {
      assert SnapshotKept(w, w.held[k]);
    }
    forall k | 0 <= k < |w.callers| ensures CallerKept(r, w.callers[k]) {
      assert CallerKept(w, w.callers[k]);
    }
  }

  // A container may move to an array nobody else uses, or a new one may start there.
  lemma SettleKeeps(w: World, s: Header, owners: seq<Header>, i: nat)
    requires Inv(w) && ValidIn(w.heap, s)
    requires i <= |w.owners| && owners == if i < |w.owners| then w.owners[i := s] else w.owners + [s]
    requires forall j :: 0 <= j < |w.owners| ==> w.owners[j].arr != s.arr
    requires forall k :: 0 <= k < |w.callers| ==> w.callers[k].slice.arr != s.arr
    requires forall k :: 0 <= k < |w.held| ==> w.held[k].slice.arr != s.arr
    ensures Inv(w.(owners := owners))
  {
    var r := w.(owners := owners);
    forall k | 0 <= k < |w.held| ensures SnapshotKept(r, w.held[k]) {
      assert SnapshotKept(w, w.held[k]);
    }
    forall k | 0 <= k < |w.callers| ensures CallerKept(r, w.callers[k]) {
      assert CallerKept(w, w.callers[k]);
    }
  }

  // Both at once: container i, old or new, gets the given contents in a fresh array.
  lemma FreshKeeps(w: World, i: nat, contents: seq<Item>, slack: nat)
    requires Inv(w) && i <= |w.owners|
    ensures var (heap, s) := MakeIn(w.heap, contents, slack);
            var owners := if i < |w.owners| then w.owners[i := s] else w.owners + [s];
            Inv(w.(heap := heap, owners := owners))
  {
    var (heap, s) := MakeIn(w.heap, contents, slack);
    MakeKeeps(w, contents, slack);
    var r := w.(heap := heap);
    forall k | 0 <= k < |w.held| ensures w.held[k].slice.arr != s.arr {
      assert SnapshotKept(w, w.held[k]);
    }
    forall k | 0 <= k < |w.callers| ensures w.callers[k].slice.arr != s.arr {
      assert CallerKept(w, w.callers[k]);
    }
    SettleKeeps(r, s, if i < |w.owners| then w.owners[i := s] else w.owners + [s], i);
  }

  // An append that fits writes past the length, where no one outside can look.
  lemma AppendInPlaceKeeps(w: World, i: nat, xs: seq<Item>, slack: nat)
    requires Inv(w) && i < |w.owners|
    requires w.owners[i].len + |xs| <= |w.heap[w.owners[i].arr]|
    ensures var (heap, s) := AppendIn(w.heap, w.owners[i], xs, slack);
            Inv(w.(heap := heap, owners := w.owners[i := s]))
  {
    var o := w.owners[i];
    var (heap, s) := AppendIn(w.heap, o, xs, slack);
    var r := w.(heap := heap, owners := w.owners[i := s]);
    assert OwnersApart(r);
    forall k | 0 <= k < |w.held| ensures SnapshotKept(r, w.held[k]) {
      var h := w.held[k];
      assert SnapshotKept(w, h);
      if h.slice.arr == o.arr {
        assert heap[o.arr][..h.slice.len] == w.heap[o.arr][..h.slice.len];
      }
    }
    forall k | 0 <= k < |w.callers| ensures CallerKept(r, w.callers[k]) {
      assert CallerKept(w, w.callers[k]);
    }
  }

  lemma AppendKeeps(w: World, i: nat, xs: seq<Item>, slack: nat)
    requires Inv(w) && i < |w.owners|
    ensures var (heap, s) := AppendIn(w.heap, w.owners[i], xs, slack);
            Inv(w.(heap := heap, owners := w.owners[i := s]))
  {
    var o := w.owners[i];
    if o.len + |xs| <= |w.heap[o.arr]| {
      AppendInPlaceKeeps(w, i, xs, slack);
    } else {
      FreshKeeps(w, i, View(w.heap, o) + xs, slack);
    }
  }

  lemma CallerMakesKeeps(w: World, contents: seq<Item>, slack: nat)
    requires Inv(w)
    ensures Inv(Step(w, CallerMakes(contents, slack)))
  {
    MakeKeeps(w, contents, slack);
    var r := Step(w, CallerMakes(contents, slack));
    forall k | 0 <= k < |r.callers| ensures CallerKept(r, r.callers[k]) {
      if k < |w.callers| {
        assert CallerKept(w, w.callers[k]);
      }
    }
    forall k | 0 <= k < |r.held| ensures SnapshotKept(r, r.held[k]) {
      assert SnapshotKept(w, w.held[k]);
    }
  }

  lemma GetKeeps(w: World, i: nat)
    requires Inv(w)
    ensures Inv(Step(w, Get(i)))
  {
    var r := Step(w, Get(i));
    forall k | 0 <= k < |r.held| ensures SnapshotKept(r, r.held[k]) {
      if k < |w.held| {
        assert SnapshotKept(w, w.held[k]);
      }
    }
    forall k | 0 <= k < |r.callers| ensures CallerKept(r, r.callers[k]) {
      assert CallerKept(w, w.callers[k]);
    }
  }

  lemma StepKeeps(w: World, op: Op)
    requires Inv(w)
    ensures Inv(Step(w, op))
  {
    match op
    case CallerMakes(contents, slack) => CallerMakesKeeps(w, contents, slack);
    case Get(i) => GetKeeps(w, i);
    case Add(i, src, slack) =>
      if i < |w.owners| {
        AppendKeeps(w, i, Arguments(w, src), slack);
      }
    case Replace(i, src) =>
      if i < |w.owners| {
        FreshKeeps(w, i, ReplaceAll(View(w.heap, w.owners[i]), Arguments(w, src)), 0);
      }
    case Factory(src, slack) => FreshKeeps(w, |w.owners|, Arguments(w, src), slack);
    case Derive(i, slack) =>
      if i < |w.owners| {
        FreshKeeps(w, |w.owners|, View(w.heap, w.owners[i]), slack);
      }
  }

  // What was handed out or handed in stays on record.
  lemma RecordsGrow(w: World, op: Op)
    requires Inv(w)
    ensures var r := Step(w, op);
            && |w.held| <= |r.held| && (forall k :: 0 <= k < |w.held| ==> r.held[k] == w.held[k])
            && |w.callers| <= |r.callers| && (forall k :: 0 <= k < |w.callers| ==> r.callers[k] == w.callers[k])
  {
  }

  function Run(w: World, ops: seq<Op>): World
    requires Inv(w)
    decreases |ops|
  {
    if ops == [] then w
    else
      StepKeeps(w, ops[0]);
      Run(Step(w, ops[0]), ops[1..])
  }

  lemma {:induction false} RunKeeps(w: World, ops: seq<Op>)
    requires Inv(w)
    ensures var r := Run(w, ops);
            && Inv(r)
            && |w.held| <= |r.held| && (forall k :: 0 <= k < |w.held| ==> r.held[k] == w.held[k])
            && |w.callers| <= |r.callers| && (forall k :: 0 <= k < |w.callers| ==> r.callers[k] == w.callers[k])
    decreases |ops|
  {
    if ops != [] {
      StepKeeps(w, ops[0]);
      RecordsGrow(w, ops[0]);
      RunKeeps(Step(w, ops[0]), ops[1..]);
    }
  }

  /** Whatever is done afterwards to any container, a slice a getter returned keeps its
      elements, and no slot of an array a caller passed in is ever written. */
  lemma SnapshotsAndCallersUndisturbed(w: World, ops: seq<Op>)
    requires Inv(w)
    ensures var r := Run(w, ops);
            forall k :: 0 <= k < |w.held| ==>
              (ValidIn(r.heap, w.held[k].slice) && View(r.heap, w.held[k].slice) == View(w.heap, w.held[k].slice))
    ensures var r := Run(w, ops);
            forall k :: 0 <= k < |w.callers| ==>
              (w.callers[k].slice.arr < |r.heap|
               && r.heap[w.callers[k].slice.arr] == w.heap[w.callers[k].slice.arr])
  {
    RunKeeps(w, ops);
    var r := Run(w, ops);
    forall k | 0 <= k < |w.held|
      ensures ValidIn(r.heap, w.held[k].slice) && View(r.heap, w.held[k].slice) == View(w.heap, w.held[k].slice)
    {
      assert SnapshotKept(r, r.held[k]) && SnapshotKept(w, w.held[k]);
    }
    forall k | 0 <= k < |w.callers|
      ensures w.callers[k].slice.arr < |r.heap|
      ensures r.heap[w.callers[k].slice.arr] == w.heap[w.callers[k].slice.arr]
    {
      assert CallerKept(r, r.callers[k]) && CallerKept(w, w.callers[k]);
    }
  }

  // The containers an operation is meant to change.
  predicate Touches(op: Op, i: nat) {
    (op.Add? || op.Replace?) && op.owner == i
  }

  lemma StepIsLocal(w: World, op: Op, i: nat)
    requires Inv(w) && i < |w.owners| && !Touches(op, i)
    ensures var r := Step(w, op);
            i < |r.owners| && ValidIn(r.heap, r.owners[i]) && View(r.heap, r.owners[i]) == View(w.heap, w.owners[i])
  {
    StepKeeps(w, op);
    var r := Step(w, op);
    assert r.owners[i] == w.owners[i];
    assert r.heap[w.owners[i].arr] == w.heap[w.owners[i].arr];
  }

  /** Parents, children and siblings do not see each other's changes: a container is what
      it was unless it is itself added to or replaced. */
  lemma {:induction false} ContainersIsolated(w: World, ops: seq<Op>, i: nat)
    requires Inv(w) && i < |w.owners| && forall k :: 0 <= k < |ops| ==> !Touches(ops[k], i)
    ensures var r := Run(w, ops);
            i < |r.owners| && ValidIn(r.heap, r.owners[i]) && View(r.heap, r.owners[i]) == View(w.heap, w.owners[i])
    decreases |ops|
  {
    if ops != [] {
      StepKeeps(w, ops[0]);
      StepIsLocal(w, ops[0], i);
      ContainersIsolated(Step(w, ops[0]), ops[1..], i);
    }
  }

  // ---------------------------------------------------------------- the implementation

  // The rest of a logger's configuration: identifiers stand for the functions.
  datatype Settings = Settings(
    name: string, ioLevel: int, enabled: bool, errorHandler: nat, contextExtractor: nat, fastGate: bool)

  const NO_FUNCTION: nat := 0

  function Default(name: string): Settings {
    Settings(name, 0, true, NO_FUNCTION, NO_FUNCTION, false)
  }

  class Logger {
    var settings: Settings
    var outputs: Slice<Item>
    var tags: Slice<Item>
    var fields: map<string, string>

    ghost predicate Valid()
      reads this
    {
      outputs.Valid() && tags.Valid() && outputs.a != tags.a
    }

    /** The factory: the arguments are cloned. */
    constructor (name: string, items: Slice<Item>, slack: nat)
      requires items.Valid()
      ensures settings == Default(name)
      ensures Valid() && fresh(outputs.a) && fresh(tags.a)
      ensures outputs.View() == items.View() && tags.View() == [] && fields == map[]
      ensures outputs.len == items.len && outputs.a[..] == items.View() + Zeros(slack)
    {
      var os := Make(items.a[..items.len], slack, ZERO);
      var none: seq<Item> := [];
      var ts := Make(none, 0, ZERO);
      settings, outputs, tags, fields := Default(name), os, ts, map[];
    }

    /** The slice itself, uncopied: see SnapshotSurvives. */
    method GetOutputs() returns (s: Slice<Item>)
      requires Valid()
      ensures s == outputs && s.Valid() && s.View() == outputs.View()
    {
      s := outputs;
    }

    /** AddOutputs: only slots past the current length are written, so slices handed out
        before keep their elements. */
    method AddOutputs(items: seq<Item>, slack: nat)
      requires Valid()
      modifies this, outputs.a
      ensures outputs.Valid() && outputs.View() == old(outputs.View()) + items
      ensures old(outputs.a)[..old(outputs.len)] == old(outputs.a[..outputs.len])
      ensures var (heap, s) := AppendIn([old(outputs.a[..])], Header(0, old(outputs.len)), items, slack);
              && old(outputs.a)[..] == heap[0] && outputs.len == s.len && outputs.a[..] == heap[s.arr]
              && if s.arr == 0 then outputs.a == old(outputs.a) else fresh(outputs.a)
      ensures tags == old(tags) && fields == old(fields) && settings == old(settings) && Valid()
    {
      outputs := Append(outputs, items, slack, ZERO);
    }

    /** SetOutputs: replaced by name in a fresh copy; no existing array is written. */
    method SetOutputs(items: seq<Item>)
      requires Valid()
      modifies this
      ensures Valid() && fresh(outputs.a)
      ensures Replaced(old(outputs.View()), items, outputs.View())
      ensures outputs.View() == ReplaceAll(old(outputs.View()), items) && outputs.len == old(outputs.len)
      ensures outputs.a[..] == outputs.View()
      ensures tags == old(tags) && fields == old(fields) && settings == old(settings)
    {
      var updated := outputs.a[..outputs.len];
      ghost var before := updated;
      for j := 0 to |items|
        invariant updated == ReplaceAll(before, items[..j])
        invariant outputs == old(outputs) && tags == old(tags) && fields == old(fields) && settings == old(settings)
      {
        ghost var start := updated;
        for i := 0 to |updated|
          invariant |updated| == |start|
          invariant forall k :: 0 <= k < i ==> updated[k] == ReplaceOne(start, items[j])[k]
          invariant forall k :: i <= k < |updated| ==> updated[k] == start[k]
          invariant outputs == old(outputs) && tags == old(tags) && fields == old(fields) && settings == old(settings)
        {
          if EqualFold(updated[i].name, items[j].name) {
            updated := updated[i := items[j]];
          }
        }
        assert updated == ReplaceOne(start, items[j]);
        assert items[..j + 1][..j] == items[..j];
      }
      assert items[..|items|] == items;
      ReplaceAllReplaces(before, items);
      outputs := Make(updated, 0, ZERO);
    }

    /** New: a child under another name. The handlers and the fast gate are not inherited. */
    method NewChild(name: string, slack: nat) returns (child: Logger)
      requires Valid()
      ensures fresh(child) && child.Valid() && fresh(child.outputs.a) && fresh(child.tags.a)
      ensures child.outputs.View() == outputs.View() && child.tags.View() == tags.View() && child.fields == fields
      ensures child.outputs.len == outputs.len && child.outputs.a[..] == outputs.View() + Zeros(slack)
      ensures child.settings == Default(name).(ioLevel := settings.ioLevel, enabled := settings.enabled)
    {
      child := new Logger(name, outputs, slack);
      child.settings := child.settings.(ioLevel := settings.ioLevel, enabled := settings.enabled);
      var ts := Make(tags.a[..tags.len], slack, ZERO);
      child.tags, child.fields := ts, fields;
    }

    /** With: a derived logger with the same settings, its own containers and the merged
        fields, the argument winning; nothing that exists is modified. */
    method With(f: map<string, string>, slack: nat) returns (child: Logger)
      requires Valid()
      ensures fresh(child) && child.Valid() && fresh(child.outputs.a) && fresh(child.tags.a)
      ensures child.outputs.View() == outputs.View() && child.tags.View() == tags.View()
      ensures child.outputs.len == outputs.len && child.outputs.a[..] == outputs.View() + Zeros(slack)
      ensures child.fields == fields + f && child.settings == settings
    {
      var merged: map<string, string> := map[];
      merged := MergeInto(merged, fields);
      merged := MergeInto(merged, f);
      child := new Logger(settings.name, outputs, slack);
      child.settings := settings;
      var ts := Make(tags.a[..tags.len], slack, ZERO);
      child.tags := ts;
      child.fields := merged;
    }
  }

  /** A slice obtained from GetOutputs before an AddOutputs and a SetOutputs still has the
      elements it had, although the append may have used its array. */
  method SnapshotSurvives(lg: Logger, more: seq<Item>, replacements: seq<Item>, slack: nat) returns (s: Slice<Item>)
    requires lg.Valid()
    modifies lg, lg.outputs.a
    ensures lg.Valid() && s.Valid() && s.View() == old(lg.outputs.View())
    ensures Replaced(old(lg.outputs.View()) + more, replacements, lg.outputs.View())
  {
    s := lg.GetOutputs();
    lg.AddOutputs(more, slack);
    lg.SetOutputs(replacements);
  }

  // ---------------------------------------------------------------- it implements the system

  /** The arrays are those of the heap, and the loggers' outputs its containers. */
  ghost predicate Implements(w: World, arrays: seq<array<Item>>, loggers: seq<Logger>)
    reads arrays, loggers
  {
    && |arrays| == |w.heap| && |loggers| == |w.owners|
    && (forall a, b :: 0 <= a < b < |arrays| ==> arrays[a] != arrays[b])
    && (forall i, j :: 0 <= i < j < |loggers| ==> loggers[i] != loggers[j])
    && (forall a :: 0 <= a < |arrays| ==> arrays[a][..] == w.heap[a])
    && (forall i :: 0 <= i < |loggers| ==> Holds(w.owners[i], arrays, loggers[i]))
  }

  ghost predicate Holds(s: Header, arrays: seq<array<Item>>, lg: Logger)
    reads lg
  {
    s.arr < |arrays| && lg.outputs == Slice(arrays[s.arr], s.len) && lg.Valid()
  }

  /** AddOutputs is the system's Add. */
  method AddImplements(ghost w: World, ghost arrays: seq<array<Item>>, ghost loggers: seq<Logger>, ghost i: nat,
                       lg: Logger, items: seq<Item>, slack: nat) returns (ghost after: seq<array<Item>>)
    requires Inv(w) && Implements(w, arrays, loggers) && i < |loggers| && loggers[i] == lg
    modifies lg, lg.outputs.a
    ensures Implements(Step(w, Add(i, FromValues(items), slack)), after, loggers)
  {
    ghost var o := w.owners[i];
    assert Holds(o, arrays, lg) && arrays[o.arr][..] == w.heap[o.arr];
    lg.AddOutputs(items, slack);
    ghost var r := Step(w, Add(i, FromValues(items), slack));
    after := if lg.outputs.a == arrays[o.arr] then arrays else arrays + [lg.outputs.a];
    forall a | 0 <= a < |after|
      ensures after[a][..] == r.heap[a]
    {
    }
    forall j | 0 <= j < |loggers|
      ensures Holds(r.owners[j], after, loggers[j])
    {
      assert old(Holds(w.owners[j], arrays, loggers[j]));
    }
  }

  /** SetOutputs is its Replace. */
  method SetImplements(ghost w: World, ghost arrays: seq<array<Item>>, ghost loggers: seq<Logger>, ghost i: nat,
                       lg: Logger, items: seq<Item>) returns (ghost after: seq<array<Item>>)
    requires Inv(w) && Implements(w, arrays, loggers) && i < |loggers| && loggers[i] == lg
    modifies lg
    ensures Implements(Step(w, Replace(i, FromValues(items))), after, loggers)
  {
    assert Holds(w.owners[i], arrays, lg) && arrays[w.owners[i].arr][..] == w.heap[w.owners[i].arr];
    lg.SetOutputs(items);
    ghost var r := Step(w, Replace(i, FromValues(items)));
    after := arrays + [lg.outputs.a];
    forall j | 0 <= j < |loggers|
      ensures Holds(r.owners[j], after, loggers[j])
    {
      assert old(Holds(w.owners[j], arrays, loggers[j]));
    }
  }

  /** New, and With, which gives its child the same outputs, are its Derive. */
  method ChildImplements(ghost w: World, ghost arrays: seq<array<Item>>, ghost loggers: seq<Logger>, ghost i: nat,
                         lg: Logger, name: string, slack: nat)
    returns (child: Logger, ghost after: seq<array<Item>>)
    requires Inv(w) && Implements(w, arrays, loggers) && i < |loggers| && loggers[i] == lg
    ensures fresh(child) && Implements(Step(w, Derive(i, slack)), after, loggers + [child])
  {
    assert Holds(w.owners[i], arrays, lg) && arrays[w.owners[i].arr][..] == w.heap[w.owners[i].arr];
    child := lg.NewChild(name, slack);
    ghost var r := Step(w, Derive(i, slack));
    after := arrays + [child.outputs.a];
    forall j | 0 <= j < |loggers|
      ensures Holds(r.owners[j], after, loggers[j])
    {
      assert old(Holds(w.owners[j], arrays, loggers[j]));
    }
  }

  // for k, v := range src { dst[k] = v }
  method MergeInto(dst: map<string, string>, src: map<string, string>) returns (r: map<string, string>)
    ensures r == dst + src
  {
    r := dst;
    var keys := src.Keys;
    while keys != {}
      invariant keys <= src.Keys
      invariant r == dst + (map k | k in src && k !in keys :: src[k])
      decreases keys
    {
      var k :| k in keys;
      r := r[k := src[k]];
      keys := keys - {k};
    }
  }
}
