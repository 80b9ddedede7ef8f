/** Choosing the name of a rotated file (output/rotate.go, backupPath). */
module BackupNaming {
  import Decimal

  /** The i-th name tried: the timestamped base, then the base with -1, -2, ... */
  function Candidate(base: string, i: nat): string {
    if i == 0 then base else base + "-" + Decimal.Print(i)
  }

  lemma CandidatesDiffer(base: string, i: nat, j: nat)
    requires i != j
    ensures Candidate(base, i) != Candidate(base, j)
  {
    if i > 0 && j > 0 {
      var p := |base| + 1;
      assert Candidate(base, i)[p..] == Decimal.Print(i) && Candidate(base, j)[p..] == Decimal.Print(j);
      if Decimal.Print(i) == Decimal.Print(j) {
        Decimal.PrintInjective(i, j);
      }
    } else {
      assert |Candidate(base, i)| != |Candidate(base, j)|;
    }
  }

  // The candidates before the i-th.
  function Tried(base: string, i: nat): set<string> {
    if i == 0 then {} else Tried(base, i - 1) + {Candidate(base, i - 1)}
  }

  lemma {:induction false} TriedSize(base: string, i: nat)
    ensures |Tried(base, i)| == i
    ensures forall c :: c in Tried(base, i) <==> exists j: nat :: j < i && c == Candidate(base, j)
  {
    if i > 0 {
      TriedSize(base, i - 1);
      if Candidate(base, i - 1) in Tried(base, i - 1) {
        var j: nat :| j < i - 1 && Candidate(base, i - 1) == Candidate(base, j);
        CandidatesDiffer(base, i - 1, j);
      }
    }
  }

  lemma {:induction false} SubsetSize<T>(a: set<T>, b: set<T>)
    requires a <= b
    ensures |a| <= |b|
  {
    if a != {} {
      var x :| x in a;
      SubsetSize(a - {x}, b - {x});
    }
  }

  /** The first candidate that is not taken. */
  function FirstFree(base: string, taken: set<string>, i: nat): (name: string)
    requires Tried(base, i) <= taken
    decreases |taken| - i
  {
    var c := Candidate(base, i);
    if c !in taken then c
    else
      assert |taken| - i > 0 by { TriedSize(base, i + 1); SubsetSize(Tried(base, i + 1), taken); }
      FirstFree(base, taken, i + 1)
  }

  function BackupName(base: string, taken: set<string>): string {
    FirstFree(base, taken, 0)
  }

  lemma {:induction false} FirstFreeIsFirst(base: string, taken: set<string>, i: nat) returns (k: nat)
    requires Tried(base, i) <= taken
    ensures i <= k && FirstFree(base, taken, i) == Candidate(base, k) && Candidate(base, k) !in taken
    ensures forall j: nat :: i <= j < k ==> Candidate(base, j) in taken
    decreases |taken| - i
  {
    k := i;
    if Candidate(base, i) in taken {
      TriedSize(base, i + 1);
      SubsetSize(Tried(base, i + 1), taken);
      k := FirstFreeIsFirst(base, taken, i + 1);
    }
  }

  /** The name is free, carries the base as a prefix, and is the first free candidate:
      however many files share the timestamp, no taken name is ever chosen. */
  lemma BackupNameIsFresh(base: string, taken: set<string>)
    ensures BackupName(base, taken) !in taken
    ensures base <= BackupName(base, taken)
    ensures exists k: nat :: BackupName(base, taken) == Candidate(base, k)
              && forall j: nat :: j < k ==> Candidate(base, j) in taken
  {
    var k := FirstFreeIsFirst(base, taken, 0);
  }

  /** backupPath's loop. `taken` is the set of names that Lstat finds; the loop has no
      bound in the source, and ends because the directory is finite and no two candidates
      are equal. */
  method BackupPath(base: string, taken: set<string>) returns (name: string)
    ensures name == BackupName(base, taken)
  {
    name := base;
    var i := 1;
    while name in taken
      invariant i >= 1 && name == Candidate(base, i - 1)
      invariant Tried(base, i - 1) <= taken
      invariant FirstFree(base, taken, i - 1) == BackupName(base, taken)
      decreases |taken| - i + 1
    {
      TriedSize(base, i);
      SubsetSize(Tried(base, i), taken);
      name := base + "-" + Decimal.Print(i);
      i := i + 1;
    }
  }
}
