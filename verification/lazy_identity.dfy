/** Lazily generated identities shared by a message and its copies (message/util.go,
    message/message.go: Copy, GetID, SetID and the content-hash counterparts). */
module LazyIdentity {

  datatype Cell = Cell(isSet: bool, val: string)

  /** get: `next` is what the generator returns if it runs. */
  function Resolve(c: Cell, next: string): Cell {
    if c.isSet then c else Cell(true, next)
  }

  class LazyString {
    var isSet: bool
    var val: string
    var runs: nat   // how often the generator ran

    ghost function View(): Cell
      reads this
    {
      Cell(isSet, val)
    }

    constructor Lazy()
      ensures View() == Cell(false, "") && runs == 0
    {
      isSet, val, runs := false, "", 0;
    }

    constructor Resolved(v: string)
      ensures View() == Cell(true, v) && runs == 0
    {
      isSet, val, runs := true, v, 0;
    }

    method Get(next: string) returns (v: string)
      modifies this
      ensures View() == Resolve(old(View()), next) && v == val
      ensures runs == old(runs) + if old(isSet) then 0 else 1
    {
      if !isSet {
        val := next;
        runs := runs + 1;
        isSet := true;
      }
      v := val;
    }
  }

  // ---------------------------------------------------------------- a message family

  // A member points at a cell; `pinned` if a setter was called on it or on the member it
  // was copied from, before the copy.
  datatype Member = Member(cell: nat, pinned: bool)

  // What a read observed.
  datatype Observed = Observed(member: nat, pinned: bool, value: string)

  // `generated` lists the values produced by generators, in order.
  datatype Family = Family(cells: seq<Cell>, members: seq<Member>, observed: seq<Observed>, generated: seq<string>)

  // The cell's mutex makes a read atomic, so a run is a sequence of operations.
  datatype Op = Read(m: nat, next: string) | Copy(m: nat) | Set(m: nat, v: string)

  /** New: one member, one lazy cell. */
  const NEW := Family([Cell(false, "")], [Member(0, false)], [], [])

  predicate WellFormed(f: Family) {
    |f.cells| > 0 && forall i :: 0 <= i < |f.members| ==> f.members[i].cell < |f.cells|
  }

  function Step(f: Family, op: Op): (r: Family)
    requires WellFormed(f)
    ensures WellFormed(r)
  {
    if op.m >= |f.members| then f
    else
      var member := f.members[op.m];
      match op
      case Read(m, next) =>
        var c := Resolve(f.cells[member.cell], next);
        f.(cells := f.cells[member.cell := c],
           observed := f.observed + [Observed(m, member.pinned, c.val)],
           generated := if f.cells[member.cell].isSet then f.generated else f.generated + [next])
      case Copy(_) => f.(members := f.members + [member])
      case Set(m, v) =>
        f.(cells := f.cells + [Cell(true, v)], members := f.members[m := Member(|f.cells|, true)])
  }

  function Run(f: Family, ops: seq<Op>): (r: Family)
    requires WellFormed(f)
    ensures WellFormed(r)
    decreases |ops|
  {
    if ops == [] then f else Run(Step(f, ops[0]), ops[1..])
  }

  // The original cell is the only lazy one, exactly the unpinned members share it, and what
  // they read is the one value it ever held.
  predicate FamilyInv(f: Family) {
    && WellFormed(f)
    && (forall i :: 0 < i < |f.cells| ==> f.cells[i].isSet)
    && (forall i :: 0 <= i < |f.members| ==> (f.members[i].cell == 0 <==> !f.members[i].pinned))
    && f.generated == (if f.cells[0].isSet then [f.cells[0].val] else [])
    && (forall k :: 0 <= k < |f.observed| && !f.observed[k].pinned ==>
          f.cells[0].isSet && f.observed[k].value == f.cells[0].val)
  }

  lemma {:induction false} RunKeepsFamily(f: Family, ops: seq<Op>)
    requires FamilyInv(f)
    ensures FamilyInv(Run(f, ops))
    decreases |ops|
  {
    if ops != [] {
      RunKeepsFamily(Step(f, ops[0]), ops[1..]);
    }
  }

  /** In any interleaving of reads, copies and setters on a message and its copies, the
      identity is generated at most once, and every read by a member without a setter in
      its ancestry observes that one value. */
  lemma GeneratedOnceAndShared(ops: seq<Op>)
    ensures var r := Run(NEW, ops);
            && |r.generated| <= 1
            && (forall k :: 0 <= k < |r.observed| && !r.observed[k].pinned ==>
                  |r.generated| == 1 && r.observed[k].value == r.generated[0])
  {
    RunKeepsFamily(NEW, ops);
  }

  // The operation is not another setter call on member m.
  predicate KeepsPin(op: Op, m: nat) {
    op.Set? ==> op.m != m
  }

  lemma {:induction false} PinHolds(f: Family, ops: seq<Op>, m: nat, v: string)
    requires FamilyInv(f) && m < |f.members| && f.members[m].pinned && f.cells[f.members[m].cell] == Cell(true, v)
    requires forall i :: 0 <= i < |ops| ==> KeepsPin(ops[i], m)
    ensures var r := Run(f, ops);
            m < |r.members| && r.members[m] == f.members[m] && r.members[m].cell < |r.cells|
            && r.cells[r.members[m].cell] == Cell(true, v)
    decreases |ops|
  {
    if ops != [] {
      RunKeepsFamily(f, [ops[0]]);
      assert Run(f, [ops[0]]) == Step(f, ops[0]) by {
        assert [ops[0]][1..] == [];
      }
      PinHolds(Step(f, ops[0]), ops[1..], m, v);
    }
  }

  /** A setter pins one member only: it reads the value set until it is set again, while
      reads of the others go on as before. */
  lemma SetterIsLocal(f: Family, m: nat, v: string, ops: seq<Op>, next: string)
    requires FamilyInv(f) && m < |f.members|
    requires forall i :: 0 <= i < |ops| ==> KeepsPin(ops[i], m)
    ensures var r := Run(Step(f, Set(m, v)), ops);
            && m < |r.members|
            && (var q := Step(r, Read(m, next)); q.observed[|q.observed| - 1..] == [Observed(m, true, v)])
    ensures forall j :: 0 <= j < |f.members| && j != m ==> Step(f, Set(m, v)).members[j] == f.members[j]
  {
    var s := Step(f, Set(m, v));
    PinHolds(s, ops, m, v);
    var r := Run(s, ops);
    var q := Step(r, Read(m, next));
    assert q.observed == r.observed + [Observed(m, true, v)];
  }
}
