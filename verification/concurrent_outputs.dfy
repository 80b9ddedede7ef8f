/** The outputs of one message, written concurrently on a shared memory (sypl.go, process and
    processOutputs; message/message.go, Copy; output/output.go, Write).

    A copy has its own content, tags and fields, but shares the backing arrays of its
    control characters and of its name lists with the message it was made from, and so with
    every other copy. The outputs' goroutines run their writes step by step: a step strips or
    restores one line break, runs one processor, or decides. A schedule is a sequence of
    steps, so a statement about all schedules is one about all interleavings. */
module ConcurrentOutputs {
  import opened Wrappers
  import opened LineBreaks
  import opened Pipeline
  import PipelineTheorems

  // ---------------------------------------------------------------- memory

  // A slice of strings: its backing array, and its length.
  datatype Slice = Slice(arr: nat, len: nat)

  // Arrays with their spare capacity, and the maps behind tags and fields.
  datatype Heap = Heap(arrays: seq<seq<string>>, tags: seq<set<string>>, fields: seq<Fields>)

  predicate InHeap(h: Heap, s: Slice) {
    s.arr < |h.arrays| && s.len <= |h.arrays[s.arr]|
  }

  function View(h: Heap, s: Slice): seq<string>
    requires InHeap(h, s)
  {
    h.arrays[s.arr][..s.len]
  }

  /** append(s, x): into the spare capacity if there is any, else into a new array of which
      `slack` slots are to spare. */
  function AppendTo(h: Heap, s: Slice, x: string, slack: nat): (Heap, Slice)
    requires InHeap(h, s)
  {
    var a := h.arrays[s.arr];
    if s.len < |a| then (h.(arrays := h.arrays[s.arr := a[s.len := x]]), Slice(s.arr, s.len + 1))
    else (h.(arrays := h.arrays + [a + [x] + seq(slack, _ => "")]), Slice(|h.arrays|, s.len + 1))
  }

  // A message object: `tags` and `fields` are references to maps, a nil map is None.
  datatype Object = Object(
    level: int, original: string, processed: string, flag: Flag, tags: nat, fields: Option<nat>,
    controlChars: Slice, outputsNames: Slice, processorsNames: Slice)

  // The line breaker's array is never one of the name lists'.
  predicate Fits(h: Heap, m: Object) {
    && m.tags < |h.tags| && (m.fields.Some? ==> m.fields.value < |h.fields|)
    && InHeap(h, m.controlChars) && InHeap(h, m.outputsNames) && InHeap(h, m.processorsNames)
    && m.controlChars.arr != m.outputsNames.arr && m.controlChars.arr != m.processorsNames.arr
  }

  function Load(h: Heap, m: Object): Body
    requires Fits(h, m)
  {
    Body(m.flag, m.processed, h.tags[m.tags], if m.fields.Some? then Some(h.fields[m.fields.value]) else None)
  }

  /** The message an object stands for. */
  function Deref(h: Heap, m: Object): Message
    requires Fits(h, m)
  {
    Message(m.level, m.original, View(h, m.controlChars), Load(h, m),
            View(h, m.outputsNames), View(h, m.processorsNames))
  }

  // What a processor does to its message: maps are changed in place.
  function Store(h: Heap, m: Object, b: Body): (Heap, Object)
    requires Fits(h, m)
  {
    var tagged := h.(tags := h.tags[m.tags := b.tags]);
    var n := m.(flag := b.flag, processed := b.processed);
    match b.fields
    case None => (tagged, n.(fields := None))
    case Some(f) =>
      if m.fields.Some? then (tagged.(fields := h.fields[m.fields.value := f]), n)
      else (tagged.(fields := h.fields + [f]), n.(fields := Some(|h.fields|)))
  }

  /** message.Copy: tags and fields are copied, the slices are not. */
  function CopyIn(h: Heap, m: Object): (Heap, Object)
    requires Fits(h, m)
  {
    var tagged := h.(tags := h.tags + [h.tags[m.tags]]);
    var n := m.(processed := m.original, tags := |h.tags|);
    match m.fields
    case None => (tagged, n)
    case Some(c) => (tagged.(fields := h.fields + [h.fields[c]]), n.(fields := Some(|h.fields|)))
  }

  lemma CopyRefines(h: Heap, m: Object)
    requires Fits(h, m)
    ensures var (h', n) := CopyIn(h, m);
            Fits(h', n) && Deref(h', n) == Copy(Deref(h, m)) && Fits(h', m) && Deref(h', m) == Deref(h, m)
  {
  }

  /** What process does to the caller's own message: the global fields go into a new map, the
      global tags into the message's own. */
  function PrepareIn(h: Heap, lg: Logger, m: Object): (Heap, Object)
    requires Fits(h, m)
  {
    var (h1, m1) := if m.outputsNames.len > 0 then (h, m)
                    else (h.(arrays := h.arrays + [OutputsNames(lg.outputs)]),
                          m.(outputsNames := Slice(|h.arrays|, |lg.outputs|)));
    var (h2, m2) := if lg.fields.None? then (h1, m1)
                    else match MergedFields(lg.fields, Load(h, m).fields)
                         case None => (h1, m1.(fields := None))
                         case Some(f) => (h1.(fields := h1.fields + [f]), m1.(fields := Some(|h1.fields|)));
    (h2.(tags := h2.tags[m.tags := h2.tags[m.tags] + lg.tags]), m2)
  }

  lemma PrepareRefines(h: Heap, lg: Logger, m: Object)
    requires Fits(h, m)
    ensures var (h', n) := PrepareIn(h, lg, m); Fits(h', n) && Deref(h', n) == Prepared(lg, Deref(h, m))
  {
    var (h', n) := PrepareIn(h, lg, m);
    assert View(h', n.outputsNames) == Prepared(lg, Deref(h, m)).outputsNames;
    assert View(h', n.controlChars) == View(h, m.controlChars);
    assert View(h', n.processorsNames) == View(h, m.processorsNames);
  }

  // ---------------------------------------------------------------- one output's write

  datatype Phase =
    | Starting
    | Stripping
    | Processing(next: nat)
    | Deciding
    | Restoring(left: nat)
    | Done(written: Option<string>)

  // An output that is not eligible has no goroutine.
  datatype Thread = Bystander(o: Output) | Writer(o: Output, m: Object, names: seq<string>, phase: Phase)

  // The variables of the environment, and the logger's name.
  datatype Setting = Setting(env: Env, component: string)

  function Advance(c: Setting, h: Heap, t: Thread, slack: nat): (Heap, Thread)
    requires t.Writer? && Fits(h, t.m)
  {
    var m := t.m;
    match t.phase
    case Starting =>
      var names := View(h, m.processorsNames);
      (h, t.(names := if names != [] then names else ProcessorsNames(t.o.processors), phase := Stripping))
    case Stripping =>
      if EndsInBreak(m.processed) then
        var n := |m.processed| - 1;
        var (h', cc) := AppendTo(h, m.controlChars, [m.processed[n]], slack);
        (h', t.(m := m.(processed := m.processed[..n], controlChars := cc)))
      else (h, t.(phase := if Skipping(m.flag) then Deciding else Processing(0)))
    case Processing(j) =>
      if j >= |t.o.processors| then (h, t.(phase := Deciding))
      else
        var (h', m') := Store(h, m, RunOne(t.o.processors[j], t.names, m.level, Load(h, m)));
        (h', t.(m := m', phase := Processing(j + 1)))
    case Deciding =>
      if Forcing(m.flag)
         || (m.level != LEVEL_NONE && m.level <= FinalMaxLevel(t.o, c.env, c.component) && !Muting(m.flag)) then
        var formats := t.o.formatter.Format? && !Skipping(m.flag);
        var (h', m') := if formats then Store(h, m, t.o.formatter.run(m.level, Load(h, m))) else (h, m);
        (h', t.(m := m', phase := Restoring(m.controlChars.len)))
      else (h, t.(phase := Done(None)))
    case Restoring(k) =>
      if k == 0 then (h, t.(phase := Done(Some(m.processed))))
      else if k <= m.controlChars.len then
        (h, t.(m := m.(processed := m.processed + View(h, m.controlChars)[k - 1]), phase := Restoring(k - 1)))
      else (h, t)
    case Done(_) => (h, t)
  }

  datatype System = System(heap: Heap, threads: seq<Thread>)

  // Which thread takes a step, and how generous an append is that needs a new array.
  datatype Turn = Turn(i: nat, slack: nat)

  function Step(c: Setting, s: System, turn: Turn): (r: System)
    ensures |r.threads| == |s.threads|
  {
    if turn.i < |s.threads| && s.threads[turn.i].Writer? && Fits(s.heap, s.threads[turn.i].m) then
      var (h, t) := Advance(c, s.heap, s.threads[turn.i], turn.slack);
      System(h, s.threads[turn.i := t])
    else s
  }

  function Run(c: Setting, s: System, schedule: seq<Turn>): (r: System)
    ensures |r.threads| == |s.threads|
    decreases |schedule|
  {
    if schedule == [] then s else Run(c, Step(c, s, schedule[0]), schedule[1..])
  }

  /** The copies, made one after the other before any write starts. */
  function Launch(h: Heap, m: Object, outputs: seq<Output>): (r: System)
    requires Fits(h, m)
    ensures |r.threads| == |outputs| && Fits(r.heap, m) && Deref(r.heap, m) == Deref(h, m)
  {
    if outputs == [] then System(h, [])
    else
      var n := |outputs| - 1;
      var s := Launch(h, m, outputs[..n]);
      if Eligible(outputs[n], Deref(h, m)) then
        CopyRefines(s.heap, m);
        var (h', copied) := CopyIn(s.heap, m);
        System(h', s.threads + [Writer(outputs[n], copied, [], Starting)])
      else System(s.heap, s.threads + [Bystander(outputs[n])])
  }

  // ---------------------------------------------------------------- the invariant

  // The message every copy was made of: the object and what it stands for.
  datatype Source = Source(m: Object, p: Message)

  // The control characters a write ends up with: those recorded before, and its own.
  function Full(src: Source): seq<string> {
    src.p.controlChars + Recorded(src.p.original)
  }

  predicate SourceKept(h: Heap, src: Source) {
    Fits(h, src.m) && Deref(h, src.m) == src.p
  }

  // Nothing of a copy but its slices is the source's, and appending to its control
  // characters reaches no name list.
  predicate OwnMaps(m: Object, src: Source) {
    && m.tags != src.m.tags && (m.fields.Some? ==> m.fields != src.m.fields)
    && m.processorsNames == src.m.processorsNames && m.outputsNames == src.m.outputsNames
    && m.controlChars.arr != src.m.processorsNames.arr && m.controlChars.arr != src.m.outputsNames.arr
  }

  // However far a write has come, its control characters are a prefix of the same list.
  predicate CharsKept(h: Heap, m: Object, src: Source)
    requires Fits(h, m)
  {
    && |src.p.controlChars| <= m.controlChars.len <= |Full(src)|
    && View(h, m.controlChars) == Full(src)[..m.controlChars.len]
  }

  // Where a write stands, as the pure pipeline sees it.
  predicate OnTrack(c: Setting, b: Body, t: Thread, src: Source)
    requires t.Writer?
  {
    var M := Copy(src.p);
    var len, full := t.m.controlChars.len, |Full(src)|;
    && t.m.level == M.level && t.m.original == M.original && Eligible(t.o, src.p)
    && match t.phase
       case Starting => len == |M.controlChars| && b == M.body
       case Stripping =>
         t.names == NamesFor(t.o, M) && full - len <= |M.original| && |M.controlChars| <= len <= full
         && b == M.body.(processed := M.original[..|M.original| - (len - |M.controlChars|)])
       case Processing(j) =>
         && len == full && t.names == NamesFor(t.o, M) && !Skipping(M.body.flag) && j <= |t.o.processors|
         && b == RunAll(t.o.processors[..j], t.names, M.level, M.body.(processed := Stripped(M.body.processed)))
       case Deciding => len == full && b == Processed(t.o, M)
       case Restoring(k) =>
         len == full && k <= full && Prints(t.o, M, c.env, c.component)
         && Restored(b.processed, Full(src)[..k]) == Rendered(t.o, M)
       case Done(w) => w == WriteTo(t.o, M, c.env, c.component)
  }

  predicate ThreadInv(c: Setting, h: Heap, t: Thread, src: Source) {
    if t.Bystander? then !Eligible(t.o, src.p)
    else Fits(h, t.m) && OwnMaps(t.m, src) && CharsKept(h, t.m, src) && OnTrack(c, Load(h, t.m), t, src)
  }

  // Two copies have their own maps, and share an array of control characters only if it is
  // the source's.
  predicate Apart(t: Thread, u: Thread, src: Source) {
    t.Writer? && u.Writer? ==>
      && t.m.tags != u.m.tags && (t.m.fields.Some? ==> t.m.fields != u.m.fields)
      && (t.m.controlChars.arr == u.m.controlChars.arr ==> t.m.controlChars.arr == src.m.controlChars.arr)
  }

  predicate Inv(c: Setting, s: System, src: Source) {
    && SourceKept(s.heap, src)
    && (forall i :: 0 <= i < |s.threads| ==> ThreadInv(c, s.heap, s.threads[i], src))
    && (forall i, j :: 0 <= i < |s.threads| && 0 <= j < |s.threads| && i != j ==>
          Apart(s.threads[i], s.threads[j], src))
  }

  // ---------------------------------------------------------------- what a step keeps

  // An append is invisible through a slice that ends before it, or that has the same string
  // there already.
  lemma AppendKeepsView(h: Heap, s: Slice, x: string, slack: nat, v: Slice)
    requires InHeap(h, s) && InHeap(h, v)
    requires v.arr == s.arr && v.len > s.len ==> View(h, v)[s.len] == x
    ensures var (h', _) := AppendTo(h, s, x, slack); InHeap(h', v) && View(h', v) == View(h, v)
  {
    var (h', _) := AppendTo(h, s, x, slack);
    if v.arr == s.arr && s.len < |h.arrays[s.arr]| {
      assert forall k :: 0 <= k < v.len ==> h'.arrays[v.arr][k] == h.arrays[v.arr][k];
    }
  }

  lemma AppendAppends(h: Heap, s: Slice, x: string, slack: nat)
    requires InHeap(h, s)
    ensures var (h', r) := AppendTo(h, s, x, slack);
            InHeap(h', r) && View(h', r) == View(h, s) + [x] && (r.arr == s.arr || r.arr == |h.arrays|)
  {
  }

  /** Two copies that append at the same place see each other's strings exactly when there is
      spare capacity and the strings differ. All copies strip the same original, so theirs
      do not. */
  lemma SharedAppendIff(h: Heap, s: Slice, x: string, y: string, slack: nat)
    requires InHeap(h, s)
    ensures var (h1, s1) := AppendTo(h, s, x, slack);
            InHeap(h1, s) && InHeap(h1, s1)
            && var (h2, s2) := AppendTo(h1, s, y, slack);
               InHeap(h2, s1) && (View(h2, s1) != View(h1, s1) <==> s.len < |h.arrays[s.arr]| && x != y)
  {
    var (h1, s1) := AppendTo(h, s, x, slack);
    var (h2, s2) := AppendTo(h1, s, y, slack);
    assert View(h1, s1)[s.len] == x;
    if s.len < |h.arrays[s.arr]| {
      assert View(h2, s1)[s.len] == y;
      if x == y {
        AppendKeepsView(h1, s, y, slack, s1);
      }
    } else {
      AppendKeepsView(h1, s, y, slack, s1);
    }
  }

  // The q-th character stripped is the q-th recorded.
  lemma StripsNext(s: string, q: nat)
    requires q <= |s| - Keep(s, |s|)
    ensures |Recorded(s)| == |s| - Keep(s, |s|)
    ensures EndsInBreak(s[..|s| - q]) <==> q < |Recorded(s)|
    ensures q < |Recorded(s)| ==> Recorded(s)[q] == [s[|s| - q - 1]]
    ensures q == |Recorded(s)| ==> s[..|s| - q] == Stripped(s)
  {
  }

  // What a write strips next is what the list of its control characters has next.
  lemma StripsFromList(c: Setting, h: Heap, t: Thread, src: Source)
    requires t.Writer? && t.phase.Stripping? && ThreadInv(c, h, t, src) && EndsInBreak(t.m.processed)
    ensures var len := t.m.controlChars.len;
            && len < |Full(src)| && [t.m.processed[|t.m.processed| - 1]] == Full(src)[len]
            && Full(src)[..len + 1] == Full(src)[..len] + [Full(src)[len]]
  {
    StripsNext(src.p.original, t.m.controlChars.len - |src.p.controlChars|);
  }

  lemma StripOwn(c: Setting, h: Heap, t: Thread, src: Source, slack: nat)
    requires t.Writer? && t.phase.Stripping? && ThreadInv(c, h, t, src) && EndsInBreak(t.m.processed)
    ensures var (h', t') := Advance(c, h, t, slack); ThreadInv(c, h', t', src)
  {
    var s := src.p.original;
    var q := t.m.controlChars.len - |src.p.controlChars|;
    var x := Full(src)[t.m.controlChars.len];
    StripsFromList(c, h, t, src);
    AppendAppends(h, t.m.controlChars, x, slack);
    AppendKeepsView(h, t.m.controlChars, x, slack, t.m.processorsNames);
    AppendKeepsView(h, t.m.controlChars, x, slack, t.m.outputsNames);
    var (h', t') := Advance(c, h, t, slack);
    assert s[..|s| - q][..|s| - q - 1] == s[..|s| - (q + 1)];
    assert CharsKept(h', t'.m, src);
    assert OnTrack(c, Load(h', t'.m), t', src);
  }

  lemma StripDone(c: Setting, h: Heap, t: Thread, src: Source, slack: nat)
    requires t.Writer? && t.phase.Stripping? && ThreadInv(c, h, t, src) && !EndsInBreak(t.m.processed)
    ensures var (h', t') := Advance(c, h, t, slack); ThreadInv(c, h', t', src)
  {
    StripsNext(src.p.original, t.m.controlChars.len - |src.p.controlChars|);
    assert t.o.processors[..0] == [];
  }

  lemma StoreLoads(h: Heap, m: Object, b: Body)
    requires Fits(h, m)
    ensures var (h', n) := Store(h, m, b);
            && Fits(h', n) && Load(h', n) == b && n.tags == m.tags && h'.arrays == h.arrays
            && n == m.(flag := b.flag, processed := b.processed, fields := n.fields)
            && (n.fields.Some? ==> n.fields == m.fields || n.fields == Some(|h.fields|))
  {
  }

  lemma ProcessOwn(c: Setting, h: Heap, t: Thread, src: Source, slack: nat)
    requires t.Writer? && t.phase.Processing? && ThreadInv(c, h, t, src) && SourceKept(h, src)
    ensures var (h', t') := Advance(c, h, t, slack); ThreadInv(c, h', t', src)
  {
    var j := t.phase.next;
    if j < |t.o.processors| {
      StoreLoads(h, t.m, RunOne(t.o.processors[j], t.names, t.m.level, Load(h, t.m)));
      assert t.o.processors[..j + 1][..j] == t.o.processors[..j];
    } else {
      assert t.o.processors[..j] == t.o.processors;
    }
  }

  lemma DecideOwn(c: Setting, h: Heap, t: Thread, src: Source, slack: nat)
    requires t.Writer? && t.phase.Deciding? && ThreadInv(c, h, t, src) && SourceKept(h, src)
    ensures var (h', t') := Advance(c, h, t, slack); ThreadInv(c, h', t', src)
  {
    if Prints(t.o, Copy(src.p), c.env, c.component) {
      FormatOwn(c, h, t, src, slack);
    }
  }

  lemma FormatOwn(c: Setting, h: Heap, t: Thread, src: Source, slack: nat)
    requires t.Writer? && t.phase.Deciding? && ThreadInv(c, h, t, src) && SourceKept(h, src)
    requires Prints(t.o, Copy(src.p), c.env, c.component)
    ensures var (h', t') := Advance(c, h, t, slack); ThreadInv(c, h', t', src)
  {
    assert Full(src)[..|Full(src)|] == Full(src);
    assert Load(h, t.m) == Processed(t.o, Copy(src.p));
    if t.o.formatter.Format? && !Skipping(t.m.flag) {
      StoreLoads(h, t.m, t.o.formatter.run(t.m.level, Load(h, t.m)));
    }
  }

  lemma RestoreOwn(c: Setting, h: Heap, t: Thread, src: Source, slack: nat)
    requires t.Writer? && t.phase.Restoring? && ThreadInv(c, h, t, src)
    ensures var (h', t') := Advance(c, h, t, slack); ThreadInv(c, h', t', src)
  {
    var k := t.phase.left;
    if k > 0 {
      assert Full(src)[..k][..k - 1] == Full(src)[..k - 1];
      assert Full(src)[..|Full(src)|] == Full(src);
    }
  }

  lemma AdvanceOwn(c: Setting, h: Heap, t: Thread, src: Source, slack: nat)
    requires t.Writer? && ThreadInv(c, h, t, src) && SourceKept(h, src)
    ensures var (h', t') := Advance(c, h, t, slack); ThreadInv(c, h', t', src)
  {
    match t.phase
    case Starting => assert src.p.original[..|src.p.original|] == src.p.original;
    case Stripping =>
      if EndsInBreak(t.m.processed) {
        StripOwn(c, h, t, src, slack);
      } else {
        StripDone(c, h, t, src, slack);
      }
    case Processing(_) => ProcessOwn(c, h, t, src, slack);
    case Deciding => DecideOwn(c, h, t, src, slack);
    case Restoring(_) => RestoreOwn(c, h, t, src, slack);
    case Done(_) =>
  }

  // The ways in which a step of t changes the memory.
  lemma StripOther(c: Setting, h: Heap, t: Thread, u: Thread, src: Source, slack: nat)
    requires t.Writer? && t.phase.Stripping? && ThreadInv(c, h, t, src) && EndsInBreak(t.m.processed)
    requires u.Writer? && ThreadInv(c, h, u, src) && Apart(t, u, src)
    ensures ThreadInv(c, Advance(c, h, t, slack).0, u, src)
  {
    var x := Full(src)[t.m.controlChars.len];
    StripsFromList(c, h, t, src);
    AppendKeepsView(h, t.m.controlChars, x, slack, u.m.controlChars);
    AppendKeepsView(h, t.m.controlChars, x, slack, u.m.processorsNames);
    AppendKeepsView(h, t.m.controlChars, x, slack, u.m.outputsNames);
    var h' := Advance(c, h, t, slack).0;
    assert Fits(h', u.m) && Load(h', u.m) == Load(h, u.m);
  }

  lemma StripApart(c: Setting, h: Heap, t: Thread, u: Thread, src: Source, slack: nat)
    requires t.Writer? && t.phase.Stripping? && Fits(h, t.m) && EndsInBreak(t.m.processed)
    requires u.Writer? && Fits(h, u.m) && Apart(t, u, src)
    ensures Apart(Advance(c, h, t, slack).1, u, src)
  {
  }

  lemma StoreOther(c: Setting, h: Heap, t: Thread, b: Body, u: Thread, src: Source)
    requires t.Writer? && Fits(h, t.m) && ThreadInv(c, h, u, src) && Apart(t, u, src)
    ensures var (h', m') := Store(h, t.m, b); ThreadInv(c, h', u, src) && Apart(t.(m := m'), u, src)
  {
    if u.Writer? {
      var (h', m') := Store(h, t.m, b);
      assert Load(h', u.m) == Load(h, u.m);
    }
  }

  // What a step of this kind stores.
  function Stored(h: Heap, t: Thread): Body
    requires t.Writer? && Fits(h, t.m)
  {
    match t.phase
    case Processing(j) =>
      if j < |t.o.processors| then RunOne(t.o.processors[j], t.names, t.m.level, Load(h, t.m)) else Load(h, t.m)
    case _ =>
      if t.o.formatter.Format? then t.o.formatter.run(t.m.level, Load(h, t.m)) else Load(h, t.m)
  }

  // Every other step leaves the memory alone, or stores the message.
  lemma AdvanceStores(c: Setting, h: Heap, t: Thread, slack: nat)
    requires t.Writer? && Fits(h, t.m) && !(t.phase.Stripping? && EndsInBreak(t.m.processed))
    ensures var (h', t') := Advance(c, h, t, slack);
            && t'.Writer? && t'.o == t.o
            && ( || (h' == h && t'.m == t.m.(processed := t'.m.processed))
                 || (h' == Store(h, t.m, Stored(h, t)).0 && t'.m == Store(h, t.m, Stored(h, t)).1))
  {
  }

  lemma SameMapsApart(t: Thread, t': Thread, u: Thread, src: Source)
    requires t.Writer? && t'.Writer? && Apart(t, u, src) && t'.m == t.m.(processed := t'.m.processed)
    ensures Apart(t', u, src)
  {
  }

  lemma AdvanceOther(c: Setting, h: Heap, t: Thread, u: Thread, src: Source, slack: nat)
    requires t.Writer? && ThreadInv(c, h, t, src) && ThreadInv(c, h, u, src) && Apart(t, u, src)
    ensures var (h', t') := Advance(c, h, t, slack); ThreadInv(c, h', u, src) && Apart(t', u, src)
  {
    if t.phase.Stripping? && EndsInBreak(t.m.processed) {
      if u.Writer? {
        StripOther(c, h, t, u, src, slack);
        StripApart(c, h, t, u, src, slack);
      }
    } else {
      var (h', t') := Advance(c, h, t, slack);
      AdvanceStores(c, h, t, slack);
      if h' == h && t'.m == t.m.(processed := t'.m.processed) {
        SameMapsApart(t, t', u, src);
      } else {
        StoreOther(c, h, t, Stored(h, t), u, src);
        SameMapsApart(t.(m := t'.m), t', u, src);
      }
    }
  }

  lemma StoreSource(h: Heap, m: Object, b: Body, src: Source)
    requires Fits(h, m) && OwnMaps(m, src) && SourceKept(h, src)
    ensures SourceKept(Store(h, m, b).0, src)
  {
    assert Load(Store(h, m, b).0, src.m) == Load(h, src.m);
  }

  lemma StripSource(c: Setting, h: Heap, t: Thread, src: Source, slack: nat)
    requires t.Writer? && t.phase.Stripping? && ThreadInv(c, h, t, src) && EndsInBreak(t.m.processed)
    requires SourceKept(h, src)
    ensures SourceKept(Advance(c, h, t, slack).0, src)
  {
    var x := [t.m.processed[|t.m.processed| - 1]];
    AppendKeepsView(h, t.m.controlChars, x, slack, src.m.controlChars);
    AppendKeepsView(h, t.m.controlChars, x, slack, src.m.processorsNames);
    AppendKeepsView(h, t.m.controlChars, x, slack, src.m.outputsNames);
  }

  lemma AdvanceSource(c: Setting, h: Heap, t: Thread, src: Source, slack: nat)
    requires t.Writer? && ThreadInv(c, h, t, src) && SourceKept(h, src)
    ensures SourceKept(Advance(c, h, t, slack).0, src)
  {
    if t.phase.Stripping? && EndsInBreak(t.m.processed) {
      StripSource(c, h, t, src, slack);
    } else {
      AdvanceStores(c, h, t, slack);
      StoreSource(h, t.m, Stored(h, t), src);
    }
  }

  lemma ApartSymmetric(t: Thread, u: Thread, src: Source)
    requires Apart(t, u, src)
    ensures Apart(u, t, src)
  {
  }

  lemma StepKeeps(c: Setting, s: System, turn: Turn, src: Source)
    requires Inv(c, s, src)
    ensures Inv(c, Step(c, s, turn), src)
  {
    var i := turn.i;
    if i < |s.threads| && s.threads[i].Writer? {
      var t := s.threads[i];
      var r := Step(c, s, turn);
      assert ThreadInv(c, s.heap, t, src);
      AdvanceOwn(c, s.heap, t, src, turn.slack);
      AdvanceSource(c, s.heap, t, src, turn.slack);
      forall j | 0 <= j < |s.threads| && j != i
        ensures ThreadInv(c, r.heap, r.threads[j], src) && Apart(r.threads[i], r.threads[j], src)
        ensures Apart(r.threads[j], r.threads[i], src)
      {
        AdvanceOther(c, s.heap, t, s.threads[j], src, turn.slack);
        ApartSymmetric(r.threads[i], r.threads[j], src);
      }
    }
  }

  // ---------------------------------------------------------------- the start

  lemma CopyStarts(c: Setting, h: Heap, o: Output, src: Source)
    requires SourceKept(h, src) && Eligible(o, src.p)
    ensures var (h', m) := CopyIn(h, src.m); SourceKept(h', src) && ThreadInv(c, h', Writer(o, m, [], Starting), src)
  {
    CopyRefines(h, src.m);
    assert Full(src)[..|src.p.controlChars|] == src.p.controlChars;
  }

  lemma CopyOther(c: Setting, h: Heap, o: Output, u: Thread, src: Source)
    requires SourceKept(h, src) && ThreadInv(c, h, u, src)
    ensures var (h', m) := CopyIn(h, src.m); ThreadInv(c, h', u, src) && Apart(Writer(o, m, [], Starting), u, src)
  {
    if u.Writer? {
      assert Load(CopyIn(h, src.m).0, u.m) == Load(h, u.m);
    }
  }

  lemma LaunchOne(c: Setting, s: System, o: Output, src: Source)
    requires Inv(c, s, src) && Eligible(o, src.p)
    ensures var (h, m) := CopyIn(s.heap, src.m); Inv(c, System(h, s.threads + [Writer(o, m, [], Starting)]), src)
  {
    var (h, m) := CopyIn(s.heap, src.m);
    var t := Writer(o, m, [], Starting);
    var r := System(h, s.threads + [t]);
    CopyStarts(c, s.heap, o, src);
    forall i | 0 <= i < |s.threads|
      ensures ThreadInv(c, h, r.threads[i], src) && Apart(t, r.threads[i], src) && Apart(r.threads[i], t, src)
    {
      CopyOther(c, s.heap, o, s.threads[i], src);
      ApartSymmetric(t, s.threads[i], src);
    }
  }

  lemma {:induction false} LaunchKeeps(c: Setting, h: Heap, m: Object, outputs: seq<Output>)
    requires Fits(h, m)
    ensures Inv(c, Launch(h, m, outputs), Source(m, Deref(h, m)))
    decreases |outputs|
  {
    if outputs != [] {
      var n := |outputs| - 1;
      LaunchKeeps(c, h, m, outputs[..n]);
      if Eligible(outputs[n], Deref(h, m)) {
        LaunchOne(c, Launch(h, m, outputs[..n]), outputs[n], Source(m, Deref(h, m)));
      }
    }
  }

  lemma {:induction false} LaunchOutputs(h: Heap, m: Object, outputs: seq<Output>, i: nat)
    requires Fits(h, m) && i < |outputs|
    ensures Launch(h, m, outputs).threads[i].o == outputs[i]
    decreases |outputs|
  {
    if i < |outputs| - 1 {
      LaunchOutputs(h, m, outputs[..|outputs| - 1], i);
    }
  }

  // ---------------------------------------------------------------- every schedule

  lemma {:induction false} RunKeeps(c: Setting, s: System, schedule: seq<Turn>, src: Source)
    requires Inv(c, s, src)
    ensures Inv(c, Run(c, s, schedule), src)
    decreases |schedule|
  {
    if schedule != [] {
      StepKeeps(c, s, schedule[0], src);
      RunKeeps(c, Step(c, s, schedule[0]), schedule[1..], src);
    }
  }

  lemma {:induction false} RunKeepsOutputs(c: Setting, s: System, schedule: seq<Turn>, i: nat)
    requires i < |s.threads|
    ensures Run(c, s, schedule).threads[i].o == s.threads[i].o
    decreases |schedule|
  {
    if schedule != [] {
      RunKeepsOutputs(c, Step(c, s, schedule[0]), schedule[1..], i);
    }
  }

  predicate Finished(t: Thread) {
    t.Bystander? || t.phase.Done?
  }

  function Written(t: Thread): Option<string>
    requires Finished(t)
  {
    if t.Bystander? then None else t.phase.written
  }

  // The system at the start of the writes.
  function Started(h: Heap, lg: Logger, m: Object): (s: System)
    requires Fits(h, m)
    ensures |s.threads| == |lg.outputs|
  {
    PrepareRefines(h, lg, m);
    var (h', n) := PrepareIn(h, lg, m);
    Launch(h', n, lg.outputs)
  }

  /** process, up to the writes of the outputs, under a schedule. */
  function Deliver(c: Setting, h: Heap, lg: Logger, m: Object, schedule: seq<Turn>): (r: System)
    requires Fits(h, m)
    ensures |r.threads| == |lg.outputs|
  {
    Run(c, Started(h, lg, m), schedule)
  }

  // Neither flagged to be dropped nor filtered out.
  predicate Delivered(lg: Logger, env: Env, m: Message) {
    m.body.flag != SkipAndMute && (env.filter == "" || FilterMatch(env.filter, lg.name))
  }

  /** In every interleaving every output writes exactly what the pure pipeline says, although
      the copies append to one array of control characters. And the message they were copied
      from stays what it was. */
  lemma DeliveryIsProcess(env: Env, h: Heap, lg: Logger, m: Object, schedule: seq<Turn>)
    requires Fits(h, m) && Delivered(lg, env, Deref(h, m))
    ensures var r := Deliver(Setting(env, lg.name), h, lg, m, schedule);
            forall i :: 0 <= i < |lg.outputs| && Finished(r.threads[i]) ==>
              Written(r.threads[i]) == Process(lg, env, Deref(h, m)).writes[i]
    ensures var r := Deliver(Setting(env, lg.name), h, lg, m, schedule);
            var n := PrepareIn(h, lg, m).1;
            Fits(r.heap, n) && Deref(r.heap, n) == Prepared(lg, Deref(h, m))
  {
    var c := Setting(env, lg.name);
    PrepareRefines(h, lg, m);
    var (h', n) := PrepareIn(h, lg, m);
    var src := Source(n, Deref(h', n));
    var s := Launch(h', n, lg.outputs);
    LaunchKeeps(c, h', n, lg.outputs);
    RunKeeps(c, s, schedule, src);
    var r := Run(c, s, schedule);
    forall i | 0 <= i < |lg.outputs| && Finished(r.threads[i])
      ensures Written(r.threads[i]) == Process(lg, env, Deref(h, m)).writes[i]
    {
      LaunchOutputs(h', n, lg.outputs, i);
      RunKeepsOutputs(c, s, schedule, i);
      assert ThreadInv(c, r.heap, r.threads[i], src);
    }
  }

  /** So outputs do not disturb each other: whatever the others do and in whatever order, an
      output writes what it writes when it is the logger's only one. */
  lemma OutputsIsolated(env: Env, h: Heap, lg: Logger, m: Object, i: nat, schedule: seq<Turn>, alone: seq<Turn>)
    requires Fits(h, m) && Delivered(lg, env, Deref(h, m)) && i < |lg.outputs|
    ensures var r := Deliver(Setting(env, lg.name), h, lg, m, schedule);
            var q := Deliver(Setting(env, lg.name), h, lg.(outputs := [lg.outputs[i]]), m, alone);
            Finished(r.threads[i]) && Finished(q.threads[0]) ==> Written(r.threads[i]) == Written(q.threads[0])
  {
    DeliveryIsProcess(env, h, lg, m, schedule);
    DeliveryIsProcess(env, h, lg.(outputs := [lg.outputs[i]]), m, alone);
    PipelineTheorems.OutputAlone(lg, env, Deref(h, m), i);
  }

  // ---------------------------------------------------------------- every write ends

  // How many steps a write still takes.
  function Left(t: Thread): nat {
    if t.Bystander? then 0
    else
      var len, ps := t.m.controlChars.len, |t.o.processors|;
      match t.phase
      case Starting => 2 * |t.m.processed| + len + ps + 5
      case Stripping => 2 * |t.m.processed| + len + ps + 4
      case Processing(j) => (if j < ps then ps - j else 0) + len + 3
      case Deciding => len + 2
      case Restoring(k) => k + 1
      case Done(_) => 0
  }

  function TotalLeft(threads: seq<Thread>): nat {
    if threads == [] then 0 else Left(threads[0]) + TotalLeft(threads[1..])
  }

  lemma {:induction false} TotalLeftUpdate(threads: seq<Thread>, i: nat, t: Thread)
    requires i < |threads|
    ensures TotalLeft(threads[i := t]) + Left(threads[i]) == TotalLeft(threads) + Left(t)
  {
    if i == 0 {
      assert threads[i := t][1..] == threads[1..];
    } else {
      assert threads[i := t][1..] == threads[1..][i - 1 := t];
      TotalLeftUpdate(threads[1..], i - 1, t);
    }
  }

  lemma LeftDrops(c: Setting, h: Heap, t: Thread, src: Source, slack: nat)
    requires ThreadInv(c, h, t, src) && !Finished(t)
    ensures Left(Advance(c, h, t, slack).1) < Left(t)
  {
  }

  // Only threads that have something to do are scheduled.
  predicate Busy(c: Setting, s: System, schedule: seq<Turn>)
    decreases |schedule|
  {
    schedule == [] ||
    ( && schedule[0].i < |s.threads| && !Finished(s.threads[schedule[0].i])
      && Busy(c, Step(c, s, schedule[0]), schedule[1..]))
  }

  /** No write waits for another: a thread that has not finished can always take a step, and
      there are only so many steps to take. */
  lemma {:induction false} EveryWriteEnds(c: Setting, s: System, schedule: seq<Turn>, src: Source)
    requires Inv(c, s, src) && Busy(c, s, schedule)
    ensures |schedule| + TotalLeft(Run(c, s, schedule).threads) <= TotalLeft(s.threads)
    decreases |schedule|
  {
    if schedule != [] {
      var turn := schedule[0];
      var t := s.threads[turn.i];
      StepKeeps(c, s, turn, src);
      assert ThreadInv(c, s.heap, t, src);
      LeftDrops(c, s.heap, t, src, turn.slack);
      TotalLeftUpdate(s.threads, turn.i, Advance(c, s.heap, t, turn.slack).1);
      EveryWriteEnds(c, Step(c, s, turn), schedule[1..], src);
    }
  }

  predicate AllFinished(s: System) {
    forall i :: 0 <= i < |s.threads| ==> Finished(s.threads[i])
  }

  // A schedule that brings every write to its end.
  lemma {:induction false} FinishAll(c: Setting, s: System, src: Source) returns (schedule: seq<Turn>)
    requires Inv(c, s, src)
    ensures Busy(c, s, schedule) && AllFinished(Run(c, s, schedule))
    decreases TotalLeft(s.threads)
  {
    if AllFinished(s) {
      schedule := [];
    } else {
      var i :| 0 <= i < |s.threads| && !Finished(s.threads[i]);
      var turn := Turn(i, 0);
      assert ThreadInv(c, s.heap, s.threads[i], src);
      StepKeeps(c, s, turn, src);
      LeftDrops(c, s.heap, s.threads[i], src, 0);
      TotalLeftUpdate(s.threads, i, Advance(c, s.heap, s.threads[i], 0).1);
      var rest := FinishAll(c, Step(c, s, turn), src);
      schedule := [turn] + rest;
      assert schedule[1..] == rest;
    }
  }

  lemma StartedInv(env: Env, h: Heap, lg: Logger, m: Object)
    requires Fits(h, m)
    ensures var (h', n) := PrepareIn(h, lg, m);
            Fits(h', n) && Inv(Setting(env, lg.name), Started(h, lg, m), Source(n, Deref(h', n)))
  {
    PrepareRefines(h, lg, m);
    var (h', n) := PrepareIn(h, lg, m);
    LaunchKeeps(Setting(env, lg.name), h', n, lg.outputs);
  }

  lemma FinishedIsProcess(env: Env, h: Heap, lg: Logger, m: Object, schedule: seq<Turn>)
    requires Fits(h, m) && Delivered(lg, env, Deref(h, m))
    requires AllFinished(Deliver(Setting(env, lg.name), h, lg, m, schedule))
    ensures var r := Deliver(Setting(env, lg.name), h, lg, m, schedule);
            seq(|r.threads|, i requires 0 <= i < |r.threads| => Written(r.threads[i]))
              == Process(lg, env, Deref(h, m)).writes
  {
    DeliveryIsProcess(env, h, lg, m, schedule);
  }

  /** Every delivery completes, and correctly: no schedule of unfinished writes is longer than
      the work there is at the start; one that cannot be prolonged has finished every write,
      with exactly the texts of the pure pipeline; and there is such a schedule. */
  lemma EveryDeliveryCompletes(env: Env, h: Heap, lg: Logger, m: Object)
    requires Fits(h, m) && Delivered(lg, env, Deref(h, m))
    ensures var c := Setting(env, lg.name);
            forall schedule :: Busy(c, Started(h, lg, m), schedule) ==>
              |schedule| <= TotalLeft(Started(h, lg, m).threads)
    ensures var c := Setting(env, lg.name);
            forall schedule :: AllFinished(Deliver(c, h, lg, m, schedule)) ==>
              (var ts := Deliver(c, h, lg, m, schedule).threads;
               seq(|ts|, i requires 0 <= i < |ts| => Written(ts[i])) == Process(lg, env, Deref(h, m)).writes)
    ensures var c := Setting(env, lg.name);
            exists schedule :: Busy(c, Started(h, lg, m), schedule) && AllFinished(Deliver(c, h, lg, m, schedule))
  {
    var c := Setting(env, lg.name);
    var s := Started(h, lg, m);
    StartedInv(env, h, lg, m);
    var (h', n) := PrepareIn(h, lg, m);
    var src := Source(n, Deref(h', n));
    forall schedule | Busy(c, s, schedule)
      ensures |schedule| <= TotalLeft(s.threads)
    {
      EveryWriteEnds(c, s, schedule, src);
    }
    forall schedule | AllFinished(Deliver(c, h, lg, m, schedule))
      ensures var ts := Deliver(c, h, lg, m, schedule).threads;
              seq(|ts|, i requires 0 <= i < |ts| => Written(ts[i])) == Process(lg, env, Deref(h, m)).writes
    {
      FinishedIsProcess(env, h, lg, m, schedule);
    }
    var schedule := FinishAll(c, s, src);
    assert Deliver(c, h, lg, m, schedule) == Run(c, s, schedule);
  }
}
