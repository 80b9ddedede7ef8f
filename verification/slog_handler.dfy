/** The slog bridge (syplslog/handler.go): attribute trees are flattened to fields under
    dotted keys, and handlers are derived without touching the one they come from. */
module SlogHandler {
  import opened Wrappers
  import opened GoSlices

  // Values are taken as already resolved.
  datatype Value = Nil | Native(repr: string) | Group(attrs: seq<Attr>)

  datatype Attr = Attr(key: string, value: Value)

  datatype Field = Field(key: string, value: Value)

  const NO_FIELD := Field("", Nil)

  const SEPARATOR := "."

  function JoinKey(prefix: string, key: string): string {
    if prefix == "" then key else prefix + SEPARATOR + key
  }

  /** strings.Join with the separator. */
  function Join(parts: seq<string>): string {
    if parts == [] then ""
    else if |parts| == 1 then parts[0]
    else parts[0] + SEPARATOR + Join(parts[1..])
  }

  /** appendAttr: what one attribute adds. */
  function Flatten(prefix: string, a: Attr): seq<Field>
    decreases a
  {
    match a.value
    case Group(attrs) => FlattenAll(if a.key != "" then JoinKey(prefix, a.key) else prefix, attrs)
    case Nil => if a.key == "" then [] else [Field(JoinKey(prefix, a.key), Nil)]
    case Native(_) => [Field(JoinKey(prefix, a.key), a.value)]
  }

  function FlattenAll(prefix: string, attrs: seq<Attr>): seq<Field>
    decreases attrs
  {
    if attrs == [] then [] else Flatten(prefix, attrs[0]) + FlattenAll(prefix, attrs[1..])
  }

  // ---------------------------------------------------------------- handlers

  /** What a handler has accumulated. No group is empty: WithGroup sees to that. */
  datatype Derived = Derived(attrs: seq<Field>, groups: seq<string>)

  predicate NoEmptyGroup(groups: seq<string>) {
    forall i :: 0 <= i < |groups| ==> groups[i] != ""
  }

  /** The fields of a record with attributes `bs`, before they become a map. */
  function Handled(h: Derived, bs: seq<Attr>): seq<Field> {
    h.attrs + FlattenAll(Join(h.groups), bs)
  }

  function AddAttrs(h: Derived, attrs: seq<Attr>): Derived {
    h.(attrs := h.attrs + FlattenAll(Join(h.groups), attrs))
  }

  function OpenGroup(h: Derived, name: string): Derived {
    if name == "" then h else h.(groups := h.groups + [name])
  }

  /** The message's fields: a map, in which a later field of the same key wins. */
  function FieldMap(fs: seq<Field>): map<string, Value> {
    if fs == [] then map[] else FieldMap(fs[..|fs| - 1])[fs[|fs| - 1].key := fs[|fs| - 1].value]
  }

  function EnsureBreak(content: string): (r: string)
    ensures |r| > 0 && r[|r| - 1] == '\n'
    ensures r == content || r == content + "\n"
  {
    if content != "" && content[|content| - 1] == '\n' then content else content + "\n"
  }

  // ---------------------------------------------------------------- records

  // slog levels are integers, four apart; sypl's are 0 (none) to 6 (trace).
  const SLOG_DEBUG := -4
  const SLOG_INFO := 0
  const SLOG_WARN := 4
  const SLOG_ERROR := 8

  const FATAL := 1
  const ERROR := 2
  const TRACE := 6

  function ToSyplLevel(l: int): int {
    if l < SLOG_DEBUG then TRACE
    else if l < SLOG_INFO then 5
    else if l < SLOG_WARN then 4
    else if l < SLOG_ERROR then 3
    else ERROR
  }

  function ToSlogLevel(l: int): int {
    match l
    case 6 => SLOG_DEBUG - 4
    case 5 => SLOG_DEBUG
    case 3 => SLOG_WARN
    case 2 => SLOG_ERROR
    case 1 => SLOG_ERROR + 4
    case _ => SLOG_INFO
  }

  /** A record never becomes fatal, a more severe record never less severe, and every level
      but none and fatal survives the way to slog and back. */
  lemma LevelsAgree(l: int, m: int)
    ensures ERROR <= ToSyplLevel(l) <= TRACE
    ensures l <= m ==> ToSyplLevel(m) <= ToSyplLevel(l)
    ensures 0 <= m <= TRACE ==> (ToSyplLevel(ToSlogLevel(m)) == m <==> m > FATAL)
  {
  }

  /** A level between two standard ones is taken down to the lower of them. */
  lemma LevelsBetween(l: int)
    ensures l < SLOG_DEBUG ==> ToSyplLevel(l) == TRACE
    ensures SLOG_DEBUG <= l < SLOG_ERROR ==> ToSyplLevel(l) == ToSyplLevel(l - l % 4)
    ensures l >= SLOG_ERROR ==> ToSyplLevel(l) == ToSyplLevel(SLOG_ERROR)
  {
  }

  datatype Record = Record(level: int, time: int, message: string, attrs: seq<Attr>)

  // The message handed to PrintMessage; no fields at all are None.
  datatype Printed = Printed(level: int, time: int, content: string, fields: Option<map<string, Value>>)

  /** What a handler prints for a record. */
  function PrintedFor(h: Derived, r: Record): Printed {
    var fs := Handled(h, r.attrs);
    Printed(ToSyplLevel(r.level), r.time, EnsureBreak(r.message), if fs == [] then None else Some(FieldMap(fs)))
  }

  // ---------------------------------------------------------------- derivation laws

  datatype Derivation = Attrs(attrs: seq<Attr>) | InGroup(name: string)

  function Derive(h: Derived, d: Derivation): Derived {
    match d case Attrs(attrs) => AddAttrs(h, attrs) case InGroup(name) => OpenGroup(h, name)
  }

  function DeriveAll(h: Derived, ds: seq<Derivation>): Derived
    decreases |ds|
  {
    if ds == [] then h else DeriveAll(Derive(h, ds[0]), ds[1..])
  }

  /** What a chain of derivations means: attributes come first, a group wraps the rest. */
  function Meaning(ds: seq<Derivation>, bs: seq<Attr>): seq<Attr> {
    if ds == [] then bs
    else match ds[0]
         case Attrs(attrs) => attrs + Meaning(ds[1..], bs)
         case InGroup(name) => [Attr(name, Group(Meaning(ds[1..], bs)))]
  }

  lemma {:induction false} FlattenConcat(prefix: string, a: seq<Attr>, b: seq<Attr>)
    ensures FlattenAll(prefix, a + b) == FlattenAll(prefix, a) + FlattenAll(prefix, b)
    decreases |a|
  {
    if a == [] {
      assert a + b == b;
    } else {
      assert (a + b)[0] == a[0] && (a + b)[1..] == a[1..] + b;
      FlattenConcat(prefix, a[1..], b);
    }
  }

  // Opening one more group qualifies the prefix by its name.
  lemma {:induction false} JoinSnoc(groups: seq<string>, name: string)
    requires NoEmptyGroup(groups)
    ensures Join(groups + [name]) == JoinKey(Join(groups), name)
    ensures Join(groups) == "" <==> groups == []
    decreases |groups|
  {
    if groups == [] {
      assert groups + [name] == [name];
    } else {
      assert (groups + [name])[1..] == groups[1..] + [name];
      JoinSnoc(groups[1..], name);
      if |groups| > 1 {
        assert Join(groups) == groups[0] + SEPARATOR + Join(groups[1..]);
        assert Join(groups + [name]) == groups[0] + SEPARATOR + (Join(groups[1..]) + SEPARATOR + name);
      }
    }
  }

  /** h.WithAttrs(as) handles bs as h handles as followed by bs. */
  lemma WithAttrsLaw(h: Derived, attrs: seq<Attr>, bs: seq<Attr>)
    ensures Handled(AddAttrs(h, attrs), bs) == Handled(h, attrs + bs)
  {
    FlattenConcat(Join(h.groups), attrs, bs);
  }

  /** h.WithGroup(g) handles bs as h handles one group g of bs; for the empty name too,
      and for an empty bs, where the group is elided. */
  lemma WithGroupLaw(h: Derived, name: string, bs: seq<Attr>)
    requires NoEmptyGroup(h.groups)
    ensures Handled(OpenGroup(h, name), bs) == Handled(h, [Attr(name, Group(bs))])
  {
    JoinSnoc(h.groups, name);
    var one := [Attr(name, Group(bs))];
    assert one[1..] == [];
    assert FlattenAll(Join(h.groups), one) == Flatten(Join(h.groups), one[0]);
  }

  /** A handler derived in any number of steps handles a record as the original would
      handle the meaning of the steps. */
  lemma {:induction false} ChainLaw(h: Derived, ds: seq<Derivation>, bs: seq<Attr>)
    requires NoEmptyGroup(h.groups)
    ensures Handled(DeriveAll(h, ds), bs) == Handled(h, Meaning(ds, bs))
    decreases |ds|
  {
    if ds != [] {
      ChainLaw(Derive(h, ds[0]), ds[1..], bs);
      match ds[0] {
        case Attrs(attrs) => WithAttrsLaw(h, attrs, Meaning(ds[1..], bs));
        case InGroup(name) => WithGroupLaw(h, name, Meaning(ds[1..], bs));
      }
    }
  }

  /** So a derived handler prints exactly what the original would print for the record with
      the meaning of the chain as its attributes. */
  lemma DerivedPrints(h: Derived, ds: seq<Derivation>, r: Record)
    requires NoEmptyGroup(h.groups)
    ensures PrintedFor(DeriveAll(h, ds), r) == PrintedFor(h, r.(attrs := Meaning(ds, r.attrs)))
  {
    ChainLaw(h, ds, r.attrs);
  }

  // ---------------------------------------------------------------- what flattening means

  /** A leaf of an attribute tree, under the names of the named groups around it. */
  datatype Leaf = Leaf(path: seq<string>, key: string, value: Value)

  function Under(name: string, ls: seq<Leaf>): (r: seq<Leaf>)
    ensures |r| == |ls|
  {
    seq(|ls|, i requires 0 <= i < |ls| => ls[i].(path := [name] + ls[i].path))
  }

  /** The leaves, left to right, computed from the inside out and without any keys. */
  function Leaves(a: Attr): seq<Leaf>
    decreases a
  {
    match a.value
    case Group(attrs) => if a.key == "" then LeavesAll(attrs) else Under(a.key, LeavesAll(attrs))
    case _ => if a.key == "" && a.value.Nil? then [] else [Leaf([], a.key, a.value)]
  }

  function LeavesAll(attrs: seq<Attr>): seq<Leaf>
    decreases attrs
  {
    if attrs == [] then [] else Leaves(attrs[0]) + LeavesAll(attrs[1..])
  }

  function Qualified(groups: seq<string>, l: Leaf): Field {
    Field(Join(groups + l.path + [l.key]), l.value)
  }

  function QualifiedAll(groups: seq<string>, ls: seq<Leaf>): (r: seq<Field>)
    ensures |r| == |ls|
  {
    seq(|ls|, i requires 0 <= i < |ls| => Qualified(groups, ls[i]))
  }

  lemma QualifiedConcat(groups: seq<string>, a: seq<Leaf>, b: seq<Leaf>)
    ensures QualifiedAll(groups, a + b) == QualifiedAll(groups, a) + QualifiedAll(groups, b)
  {
  }

  lemma QualifiedUnder(groups: seq<string>, name: string, ls: seq<Leaf>)
    ensures QualifiedAll(groups, Under(name, ls)) == QualifiedAll(groups + [name], ls)
  {
    forall i | 0 <= i < |ls|
      ensures QualifiedAll(groups, Under(name, ls))[i] == QualifiedAll(groups + [name], ls)[i]
    {
      assert groups + ([name] + ls[i].path) + [ls[i].key] == (groups + [name]) + ls[i].path + [ls[i].key];
    }
  }

  /** The fields are the leaves of the tree, in order, each under the dotted path of all
      the groups around it: open groups first, then the named groups of the tree. */
  lemma {:induction false} FlattenIsLeaves(groups: seq<string>, a: Attr)
    requires NoEmptyGroup(groups)
    ensures Flatten(Join(groups), a) == QualifiedAll(groups, Leaves(a))
    decreases a
  {
    JoinSnoc(groups, a.key);
    match a.value
    case Group(attrs) =>
      if a.key == "" {
        FlattenAllIsLeaves(groups, attrs);
      } else {
        FlattenAllIsLeaves(groups + [a.key], attrs);
        QualifiedUnder(groups, a.key, LeavesAll(attrs));
      }
    case _ =>
      assert groups + [] + [a.key] == groups + [a.key];
  }

  lemma {:induction false} FlattenAllIsLeaves(groups: seq<string>, attrs: seq<Attr>)
    requires NoEmptyGroup(groups)
    ensures FlattenAll(Join(groups), attrs) == QualifiedAll(groups, LeavesAll(attrs))
    decreases attrs
  {
    if attrs != [] {
      FlattenIsLeaves(groups, attrs[0]);
      FlattenAllIsLeaves(groups, attrs[1..]);
      QualifiedConcat(groups, Leaves(attrs[0]), LeavesAll(attrs[1..]));
    }
  }

  predicate IsLast(fs: seq<Field>, i: int) {
    0 <= i < |fs| && forall j :: i < j < |fs| ==> fs[j].key != fs[i].key
  }

  /** The map gives each key of the fields the last value it has there. */
  lemma {:induction false} LastWins(fs: seq<Field>, i: nat)
    requires IsLast(fs, i)
    ensures fs[i].key in FieldMap(fs) && FieldMap(fs)[fs[i].key] == fs[i].value
    decreases |fs|
  {
    var n := |fs| - 1;
    if i < n {
      assert fs[n].key != fs[i].key;
      LastWins(fs[..n], i);
    }
  }

  /** It has no other keys. */
  lemma {:induction false} KeysAreFieldKeys(fs: seq<Field>, k: string)
    requires k in FieldMap(fs)
    ensures exists i :: IsLast(fs, i) && fs[i].key == k
    decreases |fs|
  {
    var n := |fs| - 1;
    if k == fs[n].key {
      assert IsLast(fs, n);
    } else {
      KeysAreFieldKeys(fs[..n], k);
      var i :| IsLast(fs[..n], i) && fs[..n][i].key == k;
      assert IsLast(fs, i);
    }
  }

  // ---------------------------------------------------------------- what reaches the message

  /** The fields a message gets for a list of fields: none at all for an empty list; else every
      key has the value of its last field, and there are no other keys. */
  ghost predicate FieldsOf(all: seq<Field>, fields: Option<map<string, Value>>) {
    if all == [] then fields.None?
    else
      && fields.Some?
      && (forall i :: IsLast(all, i) ==>
            all[i].key in fields.value && fields.value[all[i].key] == all[i].value)
      && (forall k <- fields.value :: exists i :: IsLast(all, i) && all[i].key == k)
  }

  /** The handler's own fields, and then the leaves of the record's attributes under its
      groups. */
  function AllFields(attrs: seq<Field>, groups: seq<string>, record: seq<Attr>): seq<Field> {
    attrs + QualifiedAll(groups, LeavesAll(record))
  }

  predicate ContentOf(message: string, content: string) {
    content == if |message| > 0 && message[|message| - 1] == '\n' then message else message + "\n"
  }

  lemma FieldMapIs(all: seq<Field>)
    requires all != []
    ensures FieldsOf(all, Some(FieldMap(all)))
  {
    forall i | IsLast(all, i)
      ensures all[i].key in FieldMap(all) && FieldMap(all)[all[i].key] == all[i].value
    {
      LastWins(all, i);
    }
    forall k <- FieldMap(all)
      ensures exists i :: IsLast(all, i) && all[i].key == k
    {
      KeysAreFieldKeys(all, k);
    }
  }

  /** What a handler prints, spelled out: nothing but the record's own time, its level mapped,
      its message as one line, and all the fields. */
  lemma PrintedIs(h: Derived, r: Record)
    requires NoEmptyGroup(h.groups)
    ensures var p := PrintedFor(h, r);
            && p.level == ToSyplLevel(r.level) && p.time == r.time && ContentOf(r.message, p.content)
            && FieldsOf(AllFields(h.attrs, h.groups, r.attrs), p.fields)
  {
    var all := AllFields(h.attrs, h.groups, r.attrs);
    FlattenAllIsLeaves(h.groups, r.attrs);
    if all != [] {
      FieldMapIs(all);
    }
  }

  // ---------------------------------------------------------------- the implementation

  class Handler {
    var attrs: Slice<Field>
    var groups: Slice<string>

    ghost predicate Valid()
      reads this, attrs.a, groups.a
    {
      attrs.Valid() && groups.Valid() && NoEmptyGroup(groups.View())
    }

    ghost function View(): Derived
      reads this, attrs.a, groups.a
      requires Valid()
    {
      Derived(attrs.View(), groups.View())
    }

    constructor ()
      ensures Valid() && View() == Derived([], [])
      ensures fresh(attrs.a) && fresh(groups.a)
    {
      var noFields: seq<Field>, noGroups: seq<string> := [], [];
      var fs := Make(noFields, 0, NO_FIELD);
      var ns := Make(noGroups, 0, "");
      attrs, groups := fs, ns;
    }

    /** clone: both arrays are fresh, with room for the upcoming appends. */
    method Clone(extraAttrs: nat, extraGroups: nat) returns (h2: Handler)
      requires Valid()
      ensures fresh(h2) && fresh(h2.attrs.a) && fresh(h2.groups.a)
      ensures h2.Valid() && h2.View() == View()
    {
      h2 := new Handler();
      h2.attrs := Make(attrs.a[..attrs.len], extraAttrs, NO_FIELD);
      h2.groups := Make(groups.a[..groups.len], extraGroups, "");
    }

    /** WithAttrs: nothing that existed before is modified. */
    method WithAttrs(attributes: seq<Attr>, slack: nat) returns (h2: Handler)
      requires Valid()
      ensures h2.Valid() && h2.View() == AddAttrs(View(), attributes)
      ensures if attributes == [] then h2 == this
              else fresh(h2) && fresh(h2.attrs.a) && fresh(h2.groups.a)
    {
      if |attributes| == 0 {
        return this;
      }
      h2 := Clone(|attributes|, 0);
      var prefix := JoinMethod(h2.groups);
      var r := AppendAttrs(h2.attrs, prefix, attributes, slack);
      h2.attrs := r;
    }

    /** WithGroup: nothing that existed before is modified. */
    method WithGroup(name: string, slack: nat) returns (h2: Handler)
      requires Valid()
      ensures h2.Valid() && h2.View() == OpenGroup(View(), name)
      ensures if name == "" then h2 == this
              else fresh(h2) && fresh(h2.attrs.a) && fresh(h2.groups.a)
    {
      if name == "" {
        return this;
      }
      h2 := Clone(0, 1);
      h2.groups := Append(h2.groups, [name], slack, "");
    }

    /** Handle, up to the print of the message. */
    method Handle(r: Record, slack: nat) returns (printed: Printed)
      requires Valid()
      ensures printed.level == ToSyplLevel(r.level) && printed.time == r.time
      ensures ContentOf(r.message, printed.content)
      ensures FieldsOf(AllFields(attrs.View(), groups.View(), r.attrs), printed.fields)
      ensures printed == PrintedFor(View(), r)
    {
      PrintedIs(View(), r);
      var content := r.message;
      if |content| == 0 || content[|content| - 1] != '\n' {
        content := content + "\n";
      }
      var flattened := Make(attrs.a[..attrs.len], |r.attrs|, NO_FIELD);
      var prefix := JoinMethod(groups);
      flattened := AppendAttrs(flattened, prefix, r.attrs, slack);
      var fields := CollectFields(flattened);
      printed := Printed(ToSyplLevel(r.level), r.time, content, fields);
    }
  }

  // No map at all when there are no fields.
  method CollectFields(flattened: Slice<Field>) returns (fields: Option<map<string, Value>>)
    requires flattened.Valid()
    ensures var fs := flattened.View(); fields == if fs == [] then None else Some(FieldMap(fs))
  {
    if flattened.len == 0 {
      return None;
    }
    var f: map<string, Value> := map[];
    ghost var fs := flattened.View();
    for i := 0 to flattened.len
      invariant f == FieldMap(fs[..i])
    {
      assert fs[..i + 1][..i] == fs[..i];
      f := f[flattened.a[i].key := flattened.a[i].value];
    }
    assert fs[..flattened.len] == fs;
    fields := Some(f);
  }

  // strings.Join(groups, ".").
  method JoinMethod(groups: Slice<string>) returns (s: string)
    requires groups.Valid()
    ensures s == Join(groups.View())
  {
    s := Join(groups.a[..groups.len]);
  }

  /** appendAttr for one attribute. */
  method AppendAttr(dst: Slice<Field>, prefix: string, a: Attr, slack: nat) returns (r: Slice<Field>)
    requires dst.Valid()
    modifies dst.a
    ensures r.Valid() && r.View() == old(dst.View()) + Flatten(prefix, a)
    ensures r.a == dst.a || fresh(r.a)
    decreases a, 0
  {
    if a.value.Group? {
      if |a.value.attrs| == 0 {
        return dst;
      }
      var p := prefix;
      if a.key != "" {
        p := JoinKey(prefix, a.key);
      }
      r := AppendAttrs(dst, p, a.value.attrs, slack);
    } else if a.key == "" && a.value.Nil? {
      r := dst;
    } else {
      r := Append(dst, [Field(JoinKey(prefix, a.key), a.value)], slack, NO_FIELD);
    }
  }

  /** The loop over attributes around it. */
  method AppendAttrs(dst: Slice<Field>, prefix: string, attrs: seq<Attr>, slack: nat) returns (r: Slice<Field>)
    requires dst.Valid()
    modifies dst.a
    ensures r.Valid() && r.View() == old(dst.View()) + FlattenAll(prefix, attrs)
    ensures r.a == dst.a || fresh(r.a)
    decreases attrs, 1
  {
    r := dst;
    ghost var before := dst.View();
    for i := 0 to |attrs|
      invariant r.Valid() && (r.a == dst.a || fresh(r.a))
      invariant r.View() == before + FlattenAll(prefix, attrs[..i])
    {
      var next := AppendAttr(r, prefix, attrs[i], slack);
      r := next;
      assert attrs[..i + 1] == attrs[..i] + [attrs[i]];
      FlattenConcat(prefix, attrs[..i], [attrs[i]]);
      assert [attrs[i]][1..] == [];
      assert FlattenAll(prefix, [attrs[i]]) == Flatten(prefix, attrs[i]);
    }
    assert attrs[..|attrs|] == attrs;
  }
}
