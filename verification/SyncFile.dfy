/** One binlog file of the sync daemon: its bytes, the mapped status page that survives a
    restart, and the reader's state in memory. Values only; SyncDaemon has the objects. */
module SyncFile {
  import opened Bytes
  import opened SyncLines

  const PREFIX: nat := 32
  const U32: nat := 0x1_0000_0000

  /** Positions whose mark byte lies behind the 12 header bytes of the status page. */
  const MARK_CAPACITY: nat := 10_000_000 - 12

  /** Where the reader stands between two lines: the line has been handed over, or its end
      has been stored as position while the count has not. */
  datatype Stage = Idle | Delivered | PosStored

  /** `storedPos` and `storedCount` are the last values written to the page header, which
      keeps their low 32 bits; `savedMarks` are the mark bytes of the page. */
  datatype LogFile = LogFile(
    log: Bytes,
    storedPos: nat,
    storedCount: nat,
    savedMarks: set<nat>,
    pos: nat,
    count: nat,
    marks: set<nat>,
    stage: Stage)

  const NEW_FILE: LogFile := LogFile([], 0, 0, {}, 0, 0, {}, Idle)

  /** The number of lines handed over since the process started. */
  function DeliveredCount(f: LogFile): nat {
    if f.stage.Idle? then f.count else f.count + 1
  }

  /** The part of a line that is sent: everything behind its 32-byte prefix. */
  function Payload(log: Bytes, i: nat): Bytes
    requires IsLine(log, i)
  {
    if |Line(log, i)| < PREFIX then [] else Line(log, i)[PREFIX..]
  }

  /** The reader has a whole line within the bitmap. */
  predicate HasNext(f: LogFile) {
    f.stage.Idle? && f.count < MARK_CAPACITY && f.pos <= |f.log| && FindLF(f.log, f.pos) < |f.log|
  }

  /** The line is passed over because it is marked, or is long enough to carry a payload. On any
      other line the process dies. */
  predicate CanDeliver(f: LogFile) {
    HasNext(f) && (f.count in f.marks || f.pos + PREFIX <= FindLF(f.log, f.pos))
  }

  /** The bytes the reader assigns to the message of the next line. */
  function NextPayload(f: LogFile): Bytes
    requires CanDeliver(f)
  {
    if f.pos + PREFIX <= FindLF(f.log, f.pos) then f.log[f.pos + PREFIX..FindLF(f.log, f.pos)] else []
  }

  predicate CanStorePos(f: LogFile) {
    f.stage.Delivered? && f.pos <= |f.log| && FindLF(f.log, f.pos) < |f.log|
  }

  function StorePos(f: LogFile): LogFile
    requires CanStorePos(f)
  {
    var p := FindLF(f.log, f.pos) + 1;
    f.(pos := p, storedPos := p, stage := PosStored)
  }

  function StoreCount(f: LogFile): LogFile {
    f.(count := f.count + 1, storedCount := f.count + 1, stage := Idle)
  }

  /** What a new process makes of the file: the marks come from the page, reading starts
      over, the header keeps what the old process stored last. */
  function Reopen(f: LogFile): LogFile {
    f.(pos := 0, count := 0, marks := f.savedMarks, stage := Idle)
  }

  /** The test of release_file; the header holds 32-bit words, the size is 64 bits wide. */
  predicate Releasable(f: LogFile) {
    |f.log| == f.storedPos % U32 && f.storedCount % U32 == |f.marks|
  }

  /** The header does not describe one point of the log: position and count disagree. */
  predicate Torn(f: LogFile) {
    Offset(f.log, f.storedCount) != f.storedPos
  }

  /** The stored position is a line end, at most one line ahead of the stored count. */
  ghost predicate HeaderNear(f: LogFile) {
    exists n: nat :: n <= f.storedCount + 1 && Offset(f.log, n) == f.storedPos
  }

  ghost predicate FileInv(f: LogFile) {
    && HasLines(f.log, DeliveredCount(f))
    && f.pos == Offset(f.log, if f.stage.PosStored? then f.count + 1 else f.count)
    && f.storedPos <= |f.log| && f.count <= f.storedCount && HeaderNear(f)
    && HasLines(f.log, f.storedCount) && (f.stage.PosStored? ==> f.storedPos == f.pos)
    && f.savedMarks <= f.marks
    && (forall i :: i in f.marks ==> IsLine(f.log, i))
  }

  /** Every line of the log has its mark. */
  ghost predicate FullyMarked(f: LogFile) {
    forall i: nat :: IsLine(f.log, i) ==> i in f.marks
  }

  /** Every line but one has its mark. */
  ghost predicate MissesOne(f: LogFile) {
    exists i: nat :: Misses(f, i)
  }

  ghost predicate Misses(f: LogFile, i: nat) {
    IsLine(f.log, i) && i !in f.marks && forall j: nat :: IsLine(f.log, j) && j != i ==> j in f.marks
  }

  lemma NewFileInv()
    ensures FileInv(NEW_FILE)
  {
    assert Offset(NEW_FILE.log, 0) == 0;
  }

  lemma AppendInv(f: LogFile, more: Bytes)
    requires FileInv(f)
    ensures FileInv(f.(log := f.log + more))
    ensures Torn(f.(log := f.log + more)) <==> Torn(f)
  {
    hide Offset, FindLF;
    var g := f.(log := f.log + more);
    var n: nat :| n <= f.storedCount + 1 && Offset(f.log, n) == f.storedPos;
    OffsetAppend(f.log, more, n);
    OffsetAppend(f.log, more, f.storedCount);
    OffsetAppend(f.log, more, DeliveredCount(f));
    OffsetMonotone(f.log, f.count, DeliveredCount(f));
    OffsetAppend(f.log, more, f.count);
    forall i | i in g.marks ensures IsLine(g.log, i) {
      OffsetAppend(f.log, more, i + 1);
    }
  }

  /** The next line ends where the reader finds the line feed. */
  lemma NextLine(f: LogFile)
    requires FileInv(f) && !f.stage.PosStored?
    requires f.pos <= |f.log| && FindLF(f.log, f.pos) < |f.log|
    ensures IsLine(f.log, f.count)
    ensures Offset(f.log, f.count + 1) == FindLF(f.log, f.pos) + 1
  {
  }

  lemma DeliverInv(f: LogFile)
    requires FileInv(f) && CanDeliver(f)
    ensures FileInv(f.(stage := Delivered))
    ensures IsLine(f.log, f.count) && NextPayload(f) == Payload(f.log, f.count)
  {
    NextLine(f);
    hide Offset, FindLF;
  }

  lemma StorePosInv(f: LogFile)
    requires FileInv(f) && CanStorePos(f)
    ensures FileInv(StorePos(f))
  {
    assert Offset(f.log, f.count + 1) == StorePos(f).storedPos;
  }

  lemma StoreCountInv(f: LogFile)
    requires FileInv(f) && f.stage.PosStored?
    ensures FileInv(StoreCount(f))
    ensures !Torn(StoreCount(f))
  {
    hide Offset;
    assert Offset(f.log, f.count + 1) == f.storedPos;
  }

  lemma ReopenInv(f: LogFile)
    requires FileInv(f)
    ensures FileInv(Reopen(f)) && (Torn(Reopen(f)) <==> Torn(f))
  {
  }

  lemma MarkInv(f: LogFile, i: nat)
    requires FileInv(f) && i < DeliveredCount(f)
    ensures FileInv(f.(marks := f.marks + {i}))
  {
    hide Offset, FindLF;
    OffsetMonotone(f.log, i + 1, DeliveredCount(f));
  }

  lemma SaveMarkInv(f: LogFile, i: nat)
    requires FileInv(f) && i in f.marks
    ensures FileInv(f.(savedMarks := f.savedMarks + {i}))
  {
  }

  /** When release_file's test passes, the log consists of whole lines that all carry a
      mark exactly if the header is not torn. */
  lemma ReleaseExact(f: LogFile)
    requires FileInv(f) && Releasable(f)
    ensures AtLineEnd(f.log, |f.log|)
    ensures FullyMarked(f) <==> !Torn(f)
    ensures Torn(f) ==> MissesOne(f)
  {
    hide Offset, FindLF;
    assert f.storedPos == |f.log| by {
      assert f.storedPos <= |f.log| && |f.log| < U32;
    }
    LinesBound(f.log, f.storedCount);
    assert f.storedCount == |f.marks|;
    var n: nat :| n <= f.storedCount + 1 && Offset(f.log, n) == f.storedPos;
    forall i: nat ensures IsLine(f.log, i) <==> i in Below(n) {
      LinesOfWholeLog(f.log, n, i);
    }
    assert FullyMarked(f) <==> f.marks == Below(n);
    FullIffCount(f.marks, n);
    if !Torn(f) {
      OffsetInjective(f.log, f.storedCount, n);
    } else {
      var i := AllButOne(f.marks, n);
      assert Misses(f, i);
    }
  }

  /** Once the reader has stored the end of the log, the test passes exactly when all lines
      are marked and the size fits the 32-bit header word. */
  lemma ReleaseWhenDone(f: LogFile)
    requires FileInv(f) && f.stage.Idle?
    requires f.storedPos == f.pos == |f.log| && f.storedCount == f.count
    ensures Releasable(f) <==> FullyMarked(f) && |f.log| < U32
  {
    hide Offset, FindLF;
    forall i: nat ensures IsLine(f.log, i) <==> i in Below(f.count) {
      LinesOfWholeLog(f.log, f.count, i);
    }
    assert FullyMarked(f) <==> f.marks == Below(f.count);
    FullIffCount(f.marks, f.count);
    LinesBound(f.log, f.count);
  }
}
