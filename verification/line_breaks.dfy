/** Stripping trailing line breaks before processing, and restoring them before writing
    (message/message.go, Strip and Restore). */
module LineBreaks {

  const KNOWN: seq<string> := ["\n", "\r"]

  predicate IsBreak(c: char) {
    c == '\n' || c == '\r'
  }

  predicate AllBreaks(s: string) {
    forall i :: 0 <= i < |s| ==> IsBreak(s[i])
  }

  predicate EndsInBreak(s: string) {
    s != "" && IsBreak(s[|s| - 1])
  }

  // How much of the first n characters is left without the line breaks at their end.
  function Keep(s: string, n: nat): (k: nat)
    requires n <= |s|
    ensures k <= n && (forall i :: k <= i < n ==> IsBreak(s[i])) && (k > 0 ==> !IsBreak(s[k - 1]))
  {
    if n > 0 && IsBreak(s[n - 1]) then Keep(s, n - 1) else n
  }

  function Stripped(s: string): string {
    s[..Keep(s, |s|)]
  }

  /** The maximal trailing run of line breaks. */
  function BreakRun(s: string): string {
    s[Keep(s, |s|)..]
  }

  // The control characters Strip records, last character first.
  function Recorded(s: string): seq<string> {
    var run := BreakRun(s);
    seq(|run|, i requires 0 <= i < |run| => [run[|run| - 1 - i]])
  }

  // Restore appends the control characters in reverse.
  function Restored(s: string, controlChars: seq<string>): string
    decreases |controlChars|
  {
    if controlChars == [] then s
    else
      var n := |controlChars| - 1;
      Restored(s + controlChars[n], controlChars[..n])
  }

  class Content {
    var processed: string
    var controlChars: seq<string>
    const enabled: bool

    constructor (content: string, controlChars: seq<string>, enabled: bool)
      ensures processed == content && this.controlChars == controlChars && this.enabled == enabled
    {
      processed, this.controlChars, this.enabled := content, controlChars, enabled;
    }

    // The text is as it was, or stripping is complete.
    twostate predicate DoneOrUntouched()
      reads this
    {
      || (processed == old(processed) && controlChars == old(controlChars))
      || (processed == Stripped(old(processed)) && controlChars == old(controlChars) + Recorded(old(processed)))
    }

    /** Strip: for each known line breaker, trim it, record it, and strip again. */
    method Strip()
      modifies this
      ensures processed == if enabled then Stripped(old(processed)) else old(processed)
      ensures controlChars == old(controlChars) + if enabled then Recorded(old(processed)) else []
      decreases |processed|, 1
    {
      if enabled {
        StrippedIsDone(processed);
        for i := 0 to |KNOWN|
          invariant DoneOrUntouched()
          invariant forall j :: 0 <= j < i ==> !EndsWith(processed, KNOWN[j])
        {
          if EndsWith(processed, KNOWN[i]) {
            KnownIsBreak(processed, i);
            TrimAndStrip(i);
            forall j | 0 <= j < |KNOWN|
              ensures !EndsWith(processed, KNOWN[j])
            {
              StrippedIsDone(old(processed));
              DoneHasNoSuffix(processed, j);
            }
          }
        }
        NoKnownSuffix(processed);
        DoneIsStripped(processed);
      }
    }

    // One pass through the loop body.
    method TrimAndStrip(i: nat)
      requires enabled && i < |KNOWN| && EndsWith(processed, KNOWN[i])
      modifies this
      ensures processed == Stripped(old(processed))
      ensures controlChars == old(controlChars) + Recorded(old(processed))
      decreases |processed|, 0
    {
      var known := KNOWN[i];
      var cut := processed[..|processed| - |known|];
      TrimOne(processed, i, controlChars);
      processed, controlChars := cut, controlChars + [known];
      Strip();
      assert controlChars == (old(controlChars) + [known]) + Recorded(cut);
    }

    method Restore()
      modifies this
      ensures processed == if enabled then Restored(old(processed), controlChars) else old(processed)
      ensures controlChars == old(controlChars)
    {
      if enabled {
        var i := |controlChars| - 1;
        assert controlChars[..i + 1] == controlChars;
        while i >= 0
          invariant -1 <= i < |controlChars| && controlChars == old(controlChars)
          invariant Restored(processed, controlChars[..i + 1]) == Restored(old(processed), controlChars)
        {
          assert controlChars[..i + 1][..i] == controlChars[..i];
          processed := processed + controlChars[i];
          i := i - 1;
        }
      }
    }
  }

  predicate EndsWith(s: string, suffix: string) {
    |suffix| <= |s| && s[|s| - |suffix|..] == suffix
  }

  // Any cut into a text that does not end in a break and breaks alone is the one Keep finds.
  lemma KeepUnique(s: string, k: nat)
    requires k <= |s| && (forall i :: k <= i < |s| ==> IsBreak(s[i])) && (k > 0 ==> !IsBreak(s[k - 1]))
    ensures Keep(s, |s|) == k
  {
    var j := Keep(s, |s|);
  }

  lemma StrippedIsDone(s: string)
    ensures !EndsInBreak(Stripped(s))
    ensures Stripped(Stripped(s)) == Stripped(s) && Recorded(Stripped(s)) == []
  {
    KeepUnique(Stripped(s), |Stripped(s)|);
  }

  lemma CutOne(s: string)
    requires EndsInBreak(s)
    ensures var cut := s[..|s| - 1]; Stripped(cut) == Stripped(s) && BreakRun(s) == BreakRun(cut) + [s[|s| - 1]]
  {
    KeepUnique(s[..|s| - 1], Keep(s, |s|));
  }

  // Trimming a known line breaker is one step of stripping.
  lemma TrimOne(s: string, i: nat, earlier: seq<string>)
    requires i < |KNOWN| && EndsWith(s, KNOWN[i])
    ensures |KNOWN[i]| == 1 && s != ""
    ensures var cut := s[..|s| - |KNOWN[i]|];
            Stripped(cut) == Stripped(s) && (earlier + [KNOWN[i]]) + Recorded(cut) == earlier + Recorded(s)
  {
    assert s[|s| - 1..] == [s[|s| - 1]];
    CutOne(s);
    assert Recorded(s) == [KNOWN[i]] + Recorded(s[..|s| - 1]);
  }

  lemma KnownIsBreak(s: string, i: nat)
    requires i < |KNOWN| && EndsWith(s, KNOWN[i])
    ensures EndsInBreak(s)
  {
    assert s[|s| - 1..] == [s[|s| - 1]];
  }

  lemma DoneIsStripped(s: string)
    requires !EndsInBreak(s)
    ensures Stripped(s) == s && Recorded(s) == []
  {
    KeepUnique(s, |s|);
  }

  lemma DoneHasNoSuffix(s: string, j: nat)
    requires !EndsInBreak(s) && j < |KNOWN|
    ensures !EndsWith(s, KNOWN[j])
  {
    if s != "" {
      assert s[|s| - 1..] == [s[|s| - 1]];
    }
  }

  lemma NoKnownSuffix(s: string)
    requires forall j :: 0 <= j < |KNOWN| ==> !EndsWith(s, KNOWN[j])
    ensures !EndsInBreak(s)
  {
    assert !EndsWith(s, KNOWN[0]) && !EndsWith(s, KNOWN[1]);
    if s != "" {
      assert s[|s| - 1..] == [s[|s| - 1]];
    }
  }

  /** Strip removes exactly the maximal trailing run of \n and \r: the only way to cut the
      text into a part that does not end in a line break and line breaks alone. */
  lemma StripIsMaximal(s: string, a: string, b: string)
    requires s == a + b && AllBreaks(b) && !EndsInBreak(a)
    ensures Stripped(s) == a && BreakRun(s) == b
  {
    assert forall i :: |a| <= i < |s| ==> s[i] == b[i - |a|];
    KeepUnique(s, |a|);
  }

  lemma StripSplits(s: string)
    ensures s == Stripped(s) + BreakRun(s)
    ensures AllBreaks(BreakRun(s)) && !EndsInBreak(Stripped(s))
  {
  }

  lemma {:induction false} RestoredAppends(s: string, controlChars: seq<string>)
    ensures Restored(s, controlChars) == s + Restored("", controlChars)
    decreases |controlChars|
  {
    if controlChars != [] {
      var n := |controlChars| - 1;
      RestoredAppends(s + controlChars[n], controlChars[..n]);
      RestoredAppends("" + controlChars[n], controlChars[..n]);
    }
  }

  lemma {:induction false} RestoredConcat(s: string, a: seq<string>, b: seq<string>)
    ensures Restored(s, a + b) == Restored(Restored(s, b), a)
    decreases |b|
  {
    if b == [] {
      assert a + b == a;
    } else {
      var n := |b| - 1;
      assert (a + b)[..|a + b| - 1] == a + b[..n];
      RestoredConcat(s + b[n], a, b[..n]);
    }
  }

  // Appending recorded characters from the last down to the k-th rebuilds that much text.
  lemma {:induction false} ReversedRestores(run: string, k: nat)
    requires k <= |run|
    ensures Restored("", seq(k, i requires 0 <= i < k => [run[k - 1 - i]])) == run[..k]
  {
    var cc := seq(k, i requires 0 <= i < k => [run[k - 1 - i]]);
    if k > 0 {
      var shorter := seq(k - 1, i requires 0 <= i < k - 1 => [run[k - 2 - i]]);
      ReversedRestores(run, k - 1);
      assert cc == [[run[k - 1]]] + shorter;
      RestoredConcat("", [[run[k - 1]]], shorter);
      RestoredSingle(run[..k - 1], [run[k - 1]]);
    }
  }

  lemma RestoredSingle(s: string, c: string)
    ensures Restored(s, [c]) == s + c
  {
    assert [c][..0] == [];
  }

  lemma RecordedRestores(s: string)
    ensures Restored("", Recorded(s)) == BreakRun(s)
  {
    var run := BreakRun(s);
    ReversedRestores(run, |run|);
    assert Recorded(s) == seq(|run|, i requires 0 <= i < |run| => [run[|run| - 1 - i]]);
    assert run[..|run|] == run;
  }

  /** Whatever processing makes of the stripped text, restoring puts back after it the
      original run of line breaks, in order, followed by what earlier strips recorded. */
  lemma RestoreAfterStrip(s: string, processed: string, earlier: seq<string>)
    ensures Restored(processed, earlier + Recorded(s)) == processed + BreakRun(s) + Restored("", earlier)
  {
    RestoredConcat(processed, earlier, Recorded(s));
    RestoredAppends(processed, Recorded(s));
    RecordedRestores(s);
    RestoredAppends(processed + BreakRun(s), earlier);
  }

  lemma {:induction false} RestoredLength(controlChars: seq<string>)
    requires forall i :: 0 <= i < |controlChars| ==> controlChars[i] in KNOWN
    ensures |Restored("", controlChars)| == |controlChars|
    decreases |controlChars|
  {
    if controlChars != [] {
      var n := |controlChars| - 1;
      RestoredAppends("" + controlChars[n], controlChars[..n]);
      RestoredLength(controlChars[..n]);
    }
  }

  /** Restore undoes Strip exactly when nothing was recorded before: on a message that was
      stripped earlier, the earlier line breaks come back as well. */
  lemma RoundTripIff(s: string, earlier: seq<string>)
    requires forall i :: 0 <= i < |earlier| ==> earlier[i] in KNOWN
    ensures Restored(Stripped(s), earlier + Recorded(s)) == s <==> earlier == []
  {
    RestoreAfterStrip(s, Stripped(s), earlier);
    StripSplits(s);
    RestoredLength(earlier);
    assert |Stripped(s) + BreakRun(s) + Restored("", earlier)| == |s| + |earlier|;
    if earlier == [] {
      assert Restored("", earlier) == "";
    }
  }
}
