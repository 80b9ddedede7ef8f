/** What a SYPL_FILTER value lets through (sypl.go, filterMatch), said of the text itself. */
module FilterEntries {
  import opened Text
  import opened Pipeline

  // s[a..b] lies between two separators, or the ends of the text.
  predicate WholeEntry(s: string, sep: char, a: int, b: int) {
    && 0 <= a <= b <= |s| && (forall k :: a <= k < b ==> s[k] != sep)
    && (a > 0 ==> s[a - 1] == sep) && (b < |s| ==> s[b] == sep)
  }

  // An entry is the first one, or lies behind the first separator.
  lemma EntryStarts(s: string, sep: char, i: int, a: int, b: int)
    requires WholeEntry(s, sep, 0, i) && WholeEntry(s, sep, a, b)
    ensures if a == 0 then b == i else i < a
  {
  }

  lemma ShiftEntry(s: string, sep: char, n: nat, a: int, b: int)
    requires n < |s| && s[n] == sep && n < a
    ensures WholeEntry(s, sep, a, b) <==> WholeEntry(s[n + 1..], sep, a - n - 1, b - n - 1)
    ensures WholeEntry(s, sep, a, b) ==> s[a..b] == s[n + 1..][a - n - 1..b - n - 1]
  {
    var rest := s[n + 1..];
    assert forall k :: n < k < |s| ==> rest[k - n - 1] == s[k];
    assert forall k :: 0 <= k < |rest| ==> s[k + n + 1] == rest[k];
  }

  // What Split yields is the first entry, and what it yields behind the first separator.
  lemma SplitCases(s: string, sep: char, t: string) returns (i: int)
    ensures WholeEntry(s, sep, 0, i)
    ensures t in Split(s, sep) <==> t == s[0..i] || (i < |s| && t in Split(s[i + 1..], sep))
  {
    i := IndexOf(s, sep);
    assert forall k :: 0 <= k < i ==> s[k] == s[..i][k];
    assert s[..|s|] == s;
  }

  lemma {:induction false} SplitYieldsEntries(s: string, sep: char, t: string) returns (a: int, b: int)
    requires t in Split(s, sep)
    ensures WholeEntry(s, sep, a, b) && t == s[a..b]
    decreases |s|
  {
    var i := SplitCases(s, sep, t);
    if t == s[0..i] {
      a, b := 0, i;
    } else {
      a, b := SplitYieldsEntries(s[i + 1..], sep, t);
      a, b := a + i + 1, b + i + 1;
      ShiftEntry(s, sep, i, a, b);
    }
  }

  // An entry is yielded, or is one of the text behind the first separator.
  lemma FirstOrBehind(s: string, sep: char, a: int, b: int, t: string) returns (i: int)
    requires WholeEntry(s, sep, a, b) && t == s[a..b]
    ensures a == 0 ==> t in Split(s, sep)
    ensures a > 0 ==>
              && 0 <= i < |s| && WholeEntry(s[i + 1..], sep, a - i - 1, b - i - 1)
              && t == s[i + 1..][a - i - 1..b - i - 1]
              && (t in Split(s[i + 1..], sep) ==> t in Split(s, sep))
  {
    i := SplitCases(s, sep, t);
    EntryStarts(s, sep, i, a, b);
    if a > 0 {
      ShiftEntry(s, sep, i, a, b);
    }
  }

  lemma {:induction false} EntriesAreSplit(s: string, sep: char, a: int, b: int, t: string)
    requires WholeEntry(s, sep, a, b) && t == s[a..b]
    ensures t in Split(s, sep)
    decreases |s|
  {
    var i := FirstOrBehind(s, sep, a, b, t);
    if a > 0 {
      EntriesAreSplit(s[i + 1..], sep, a - i - 1, b - i - 1, t);
    }
  }

  /** Split yields exactly the texts between separators. */
  lemma SplitEntries(s: string, sep: char, t: string)
    ensures t in Split(s, sep) <==> exists a, b :: WholeEntry(s, sep, a, b) && t == s[a..b]
  {
    if t in Split(s, sep) {
      var a, b := SplitYieldsEntries(s, sep, t);
    }
    if a, b :| WholeEntry(s, sep, a, b) && t == s[a..b] {
      EntriesAreSplit(s, sep, a, b, t);
    }
  }

  // s[c..d] is s without the space around it.
  predicate TrimsTo(s: string, c: int, d: int) {
    && 0 <= c <= d <= |s|
    && (forall k :: 0 <= k < c ==> IsSpace(s[k])) && (forall k :: d <= k < |s| ==> IsSpace(s[k]))
    && (c < d ==> !IsSpace(s[c]) && !IsSpace(s[d - 1]))
  }

  lemma {:induction false} TrimSpaceIs(s: string) returns (c: int, d: int)
    ensures TrimsTo(s, c, d) && TrimSpace(s) == s[c..d]
    decreases |s|
  {
    if s != "" && IsSpace(s[0]) {
      c, d := TrimSpaceIs(s[1..]);
      TrimFront(s, c, d);
      c, d := c + 1, d + 1;
    } else if s != "" && IsSpace(s[|s| - 1]) {
      c, d := TrimSpaceIs(s[..|s| - 1]);
      TrimBack(s, c, d);
    } else {
      c, d := 0, |s|;
      assert s[0..|s|] == s;
    }
  }

  lemma TrimFront(s: string, c: int, d: int)
    requires s != "" && IsSpace(s[0]) && TrimsTo(s[1..], c, d)
    ensures TrimsTo(s, c + 1, d + 1) && s[c + 1..d + 1] == s[1..][c..d]
  {
    var rest := s[1..];
    assert forall k :: 0 < k < |s| ==> s[k] == rest[k - 1];
  }

  lemma TrimBack(s: string, c: int, d: int)
    requires s != "" && IsSpace(s[|s| - 1]) && TrimsTo(s[..|s| - 1], c, d)
    ensures TrimsTo(s, c, d) && s[c..d] == s[..|s| - 1][c..d]
  {
    var front := s[..|s| - 1];
    assert forall k :: 0 <= k < |s| - 1 ==> s[k] == front[k];
  }

  // Two ways to trim leave the same text.
  lemma TrimsToOnce(s: string, c: int, d: int, c': int, d': int)
    requires TrimsTo(s, c, d) && TrimsTo(s, c', d')
    ensures s[c..d] == s[c'..d']
  {
    if c < d {
      assert c' <= c && d <= d';
    }
  }

  /** The filter lets a logger through exactly when one of its entries between commas, without
      the space around it, is the logger's name in any case. */
  lemma FilterMatchIff(filter: string, name: string)
    ensures FilterMatch(filter, name) <==>
              exists a, b, c, d :: WholeEntry(filter, ',', a, b) && TrimsTo(filter[a..b], c, d)
                                   && EqualFold(filter[a..b][c..d], name)
  {
    var parts := Split(filter, ',');
    if FilterMatch(filter, name) {
      var i :| 0 <= i < |parts| && EqualFold(TrimSpace(parts[i]), name);
      SplitEntries(filter, ',', parts[i]);
      var a, b :| WholeEntry(filter, ',', a, b) && parts[i] == filter[a..b];
      var c, d := TrimSpaceIs(parts[i]);
    }
    if a, b, c, d :| WholeEntry(filter, ',', a, b) && TrimsTo(filter[a..b], c, d)
                     && EqualFold(filter[a..b][c..d], name) {
      SplitEntries(filter, ',', filter[a..b]);
      var i :| 0 <= i < |parts| && parts[i] == filter[a..b];
      var c', d' := TrimSpaceIs(parts[i]);
      TrimsToOnce(parts[i], c, d, c', d');
      assert EqualFold(TrimSpace(parts[i]), name);
    }
  }
}
