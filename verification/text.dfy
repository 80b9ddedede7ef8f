/** String helpers with the behaviour of Go's strings package on ASCII text. */
module Text {

  function Lower(c: char): char {
    if 'A' <= c <= 'Z' then c + 32 as char else c
  }

  function Fold(s: string): (r: string)
    ensures |r| == |s| && forall i :: 0 <= i < |s| ==> r[i] == Lower(s[i])
  {
    seq(|s|, i requires 0 <= i < |s| => Lower(s[i]))
  }

  /** strings.EqualFold, and (?i) literals. */
  predicate EqualFold(a: string, b: string) {
    Fold(a) == Fold(b)
  }

  // The same letter, in the two cases of ASCII.
  predicate CaseVariants(c: char, d: char) {
    'A' <= c <= 'Z' && 'a' <= d <= 'z' && d as int - 'a' as int == c as int - 'A' as int
  }

  /** Strings fold to the same exactly when they differ in the case of letters only. */
  lemma EqualFoldIff(a: string, b: string)
    ensures EqualFold(a, b) <==>
            && |a| == |b|
            && forall i :: 0 <= i < |a| ==> a[i] == b[i] || CaseVariants(a[i], b[i]) || CaseVariants(b[i], a[i])
  {
    if EqualFold(a, b) {
      FoldLength(a, b);
      forall i | 0 <= i < |a|
        ensures a[i] == b[i] || CaseVariants(a[i], b[i]) || CaseVariants(b[i], a[i])
      {
        assert Lower(a[i]) == Fold(a)[i] == Fold(b)[i] == Lower(b[i]);
      }
    }
  }

  lemma FoldLength(a: string, b: string)
    requires EqualFold(a, b)
    ensures |a| == |b|
  {
    assert |a| == |Fold(a)| == |Fold(b)| == |b|;
  }

  // Folding moves no separator.
  lemma FoldKeepsSeparators(a: string, b: string, i: nat)
    requires EqualFold(a, b) && i < |a|
    ensures |a| == |b| && (a[i] == ',' <==> b[i] == ',') && (a[i] == ':' <==> b[i] == ':')
  {
    assert |a| == |Fold(a)| == |Fold(b)| == |b|;
    assert Lower(a[i]) == Fold(a)[i] == Fold(b)[i] == Lower(b[i]);
  }

  lemma FoldSlice(a: string, b: string, i: nat, j: nat)
    requires EqualFold(a, b) && i <= j <= |a|
    ensures |a| == |b| && EqualFold(a[i..j], b[i..j])
  {
    assert |a| == |Fold(a)| == |Fold(b)| == |b|;
    assert Fold(a[i..j]) == Fold(a)[i..j] && Fold(b[i..j]) == Fold(b)[i..j];
  }

  /** Where the separator first occurs, or the length. */
  function IndexOf(s: string, sep: char): (i: nat)
    ensures i <= |s| && sep !in s[..i] && (i < |s| ==> s[i] == sep)
  {
    if s == "" || s[0] == sep then 0
    else
      var i := IndexOf(s[1..], sep) + 1;
      assert s[..i] == [s[0]] + s[1..][..i - 1];
      i
  }

  /** strings.Split by a one-character separator. */
  function Split(s: string, sep: char): (parts: seq<string>)
    ensures parts != []
    decreases |s|
  {
    var i := IndexOf(s, sep);
    if i == |s| then [s] else [s[..i]] + Split(s[i + 1..], sep)
  }

  lemma {:induction false} IndexOfUnique(s: string, sep: char, i: nat)
    requires i <= |s| && sep !in s[..i] && (i < |s| ==> s[i] == sep)
    ensures IndexOf(s, sep) == i
  {
    if i > 0 {
      assert s[0] == s[..i][0] && s[1..][..i - 1] == s[..i][1..];
      IndexOfUnique(s[1..], sep, i - 1);
    }
  }

  lemma SplitHead(head: string, rest: string, sep: char)
    requires sep !in head
    ensures Split(head + [sep] + rest, sep) == [head] + Split(rest, sep)
  {
    var s := head + [sep] + rest;
    assert s[..|head|] == head && s[|head| + 1..] == rest;
    IndexOfUnique(s, sep, |head|);
  }

  lemma SplitWhole(s: string, sep: char)
    requires sep !in s
    ensures Split(s, sep) == [s]
  {
    assert s[..|s|] == s;
    IndexOfUnique(s, sep, |s|);
  }

  /** strings.Trim(s, ","). */
  function TrimCommas(s: string): string {
    if s != "" && s[0] == ',' then TrimCommas(s[1..])
    else if s != "" && s[|s| - 1] == ',' then TrimCommas(s[..|s| - 1])
    else s
  }
}
