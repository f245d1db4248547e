/** Lines of an append-only log, addressed by their number and by byte offset. */
module SyncLines {
  import opened Bytes

  /** The byte offset after the first n lines; |log| + 1 when the log has fewer lines. */
  function Offset(log: Bytes, n: nat): (p: nat)
    ensures p <= |log| + 1
  {
    if n == 0 then 0
    else
      var p := Offset(log, n - 1);
      if p > |log| then |log| + 1 else FindLF(log, p) + 1
  }

  predicate HasLines(log: Bytes, n: nat) {
    Offset(log, n) <= |log|
  }

  /** Line number i is there, with its line feed. */
  predicate IsLine(log: Bytes, i: nat) {
    HasLines(log, i + 1)
  }

  /** p is the end of some number of whole lines. */
  ghost predicate AtLineEnd(log: Bytes, p: nat) {
    exists n: nat :: Offset(log, n) == p
  }

  /** The bytes of line i, without its line feed. */
  function Line(log: Bytes, i: nat): Bytes
    requires IsLine(log, i)
  {
    OffsetStep(log, i);
    log[Offset(log, i)..Offset(log, i + 1) - 1]
  }

  lemma OffsetStep(log: Bytes, n: nat)
    requires HasLines(log, n + 1)
    ensures HasLines(log, n) && Offset(log, n) < Offset(log, n + 1)
    ensures FindLF(log, Offset(log, n)) == Offset(log, n + 1) - 1 < |log|
  {
  }

  lemma {:induction false} OffsetMonotone(log: Bytes, m: nat, n: nat)
    requires m <= n && HasLines(log, n)
    ensures HasLines(log, m) && Offset(log, m) + (n - m) <= Offset(log, n)
    decreases n
  {
    if m < n {
      OffsetStep(log, n - 1);
      OffsetMonotone(log, m, n - 1);
    }
  }

  lemma OffsetInjective(log: Bytes, m: nat, n: nat)
    requires HasLines(log, m) && HasLines(log, n) && Offset(log, m) == Offset(log, n)
    ensures m == n
  {
  }

  /** A log that ends after n whole lines has no further line. */
  lemma NoLineBeyondEnd(log: Bytes, n: nat, m: nat)
    requires Offset(log, n) == |log| && HasLines(log, m)
    ensures m <= n
  {
    if n < m { OffsetMonotone(log, n, m); }
  }

  /** A log that ends after n whole lines has exactly the lines below n. */
  lemma LinesOfWholeLog(log: Bytes, n: nat, i: nat)
    requires Offset(log, n) == |log|
    ensures IsLine(log, i) <==> i < n
  {
    hide Offset;
    if i < n {
      OffsetMonotone(log, i + 1, n);
    } else if IsLine(log, i) {
      NoLineBeyondEnd(log, n, i + 1);
    }
  }

  /** Each line has at least one byte. */
  lemma LinesBound(log: Bytes, n: nat)
    requires HasLines(log, n)
    ensures n <= |log|
  {
    OffsetMonotone(log, 0, n);
  }

  /** Appending bytes moves no line. */
  lemma {:induction false} OffsetAppend(log: Bytes, more: Bytes, n: nat)
    requires HasLines(log, n)
    ensures Offset(log + more, n) == Offset(log, n)
    decreases n
  {
    if n > 0 {
      OffsetStep(log, n - 1);
      OffsetAppend(log, more, n - 1);
      FindLFOfPrefix(log, more, Offset(log, n - 1));
    }
  }

  lemma LineAppend(log: Bytes, more: Bytes, i: nat)
    requires IsLine(log, i)
    ensures IsLine(log + more, i) && Line(log + more, i) == Line(log, i)
  {
    OffsetStep(log, i);
    OffsetAppend(log, more, i);
    OffsetAppend(log, more, i + 1);
  }

  /** The numbers below n. */
  function Below(n: nat): (r: set<nat>)
    ensures forall i: nat :: i in r <==> i < n
  {
    if n == 0 then {} else Below(n - 1) + {n - 1}
  }

  lemma {:induction false} CardBelow(n: nat)
    ensures |Below(n)| == n
  {
    if n > 0 {
      CardBelow(n - 1);
    }
  }

  /** A set of numbers below n has n members exactly when it holds all of them. */
  lemma FullIffCount(marks: set<nat>, n: nat)
    requires marks <= Below(n)
    ensures |marks| <= n
    ensures |marks| == n <==> marks == Below(n)
  {
    CardBelow(n);
    assert Below(n) == marks + (Below(n) - marks);
    assert |Below(n)| == |marks| + |Below(n) - marks|;
    if |marks| == n {
      assert Below(n) - marks == {};
    }
  }

  lemma AllButOne(marks: set<nat>, n: nat) returns (i: nat)
    requires marks <= Below(n) && |marks| + 1 == n
    ensures i < n && i !in marks && forall j: nat :: j < n && j != i ==> j in marks
  {
    CardBelow(n);
    assert Below(n) == marks + (Below(n) - marks);
    assert |Below(n) - marks| == 1;
    i :| i in Below(n) - marks;
    assert |Below(n) - marks - {i}| == 0;
    forall j: nat | j < n && j != i ensures j in marks {
      assert j !in Below(n) - marks - {i};
    }
  }
}
