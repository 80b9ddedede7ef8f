/** Go slices: a backing array and a length, with spare capacity behind it. `append` writes
    into the spare capacity when it suffices, which other slices of the same array see. */
module GoSlices {

  datatype Slice<T> = Slice(a: array<T>, len: nat) {
    ghost predicate Valid() {
      len <= a.Length
    }

    ghost function View(): seq<T>
      reads a
      requires Valid()
    {
      a[..len]
    }
  }

  /** A fresh slice of the given contents, with `slack` zeroed slots of spare capacity. */
  method Make<T>(contents: seq<T>, slack: nat, zero: T) returns (r: Slice<T>)
    ensures r.Valid() && fresh(r.a) && r.len == |contents| && r.View() == contents
    ensures r.a[..] == contents + seq(slack, _ => zero)
  {
    var a := new T[|contents| + slack](i => if 0 <= i < |contents| then contents[i] else zero);
    assert a[..] == contents + seq(slack, _ => zero);
    r := Slice(a, |contents|);
  }

  /** append(s, xs...): in place if the capacity suffices, else into a fresh array, of which
      `slack` slots are to spare. */
  method Append<T>(s: Slice<T>, xs: seq<T>, slack: nat, zero: T) returns (r: Slice<T>)
    requires s.Valid()
    modifies s.a
    ensures r.Valid() && r.len == s.len + |xs| && r.View() == old(s.View()) + xs
    ensures if s.len + |xs| <= s.a.Length
            then r.a == s.a && s.a[..] == old(s.a[..s.len]) + xs + old(s.a[s.len + |xs|..])
            else fresh(r.a) && s.a[..] == old(s.a[..]) && r.a[..] == old(s.View()) + xs + seq(slack, _ => zero)
  {
    if s.len + |xs| <= s.a.Length {
      forall i | 0 <= i < |xs| {
        s.a[s.len + i] := xs[i];
      }
      r := Slice(s.a, s.len + |xs|);
      assert s.a[..] == old(s.a[..s.len]) + xs + old(s.a[s.len + |xs|..]);
    } else {
      r := Make(s.a[..s.len] + xs, slack, zero);
    }
  }
}
