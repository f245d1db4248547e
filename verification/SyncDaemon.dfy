/** The sync daemon's objects: the file with its status page, the task pool, the reading
    loop and the releaser. Each method is tied to the value model of SyncFile. */
module SyncDaemon {
  import opened Bytes
  import opened SyncLines
  import opened SyncFile
  import opened SyncModel
  import opened SyncStatusPage

  /** The bits of a text of zeros and ones; any other character is refused, as the
      std::bitset constructor does by throwing. */
  method ParseBitset(text: Bytes) returns (bits: Option<set<nat>>)
    ensures bits.Some? <==> Binary(text)
    ensures bits.Some? ==> bits.value == Bits(text)
  {
    var found: set<nat> := {};
    var i := 0;
    while i < |text|
      invariant 0 <= i <= |text|
      invariant Binary(text[..i])
      invariant forall k: nat :: k in found <==> k < |text| && |text| - i <= k && Bit(text, k)
    {
      if text[i] != CLEAR && text[i] != SET {
        return None;
      }
      if text[i] == SET {
        found := found + {|text| - 1 - i};
      }
      assert text[..i + 1] == text[..i] + [text[i]];
      i := i + 1;
    }
    assert text[..i] == text;
    assert found == Bits(text);
    return Some(found);
  }

  class BinlogFile {
    const id: FileId
    var log: Bytes
    const page: array<byte>
    var lastReadPos: nat
    var lastReadCount: nat
    var bitmap: set<nat>
    ghost var view: LogFile

    /** The page carries the model's header and marks, the fields its memory part. */
    ghost predicate Valid()
      reads this, page
    {
      && page.Length == PAGE_SIZE
      && Word(page[..], 0) == view.storedPos % U32
      && Word(page[..], 4) == view.storedCount % U32
      && Binary(page[HEADER..])
      && MarksOf(page[..]) == view.savedMarks
      && log == view.log
      && lastReadPos == view.pos && lastReadCount == view.count && bitmap == view.marks
    }

    constructor Create(id: FileId)
      ensures Valid() && fresh(page) && this.id == id && view == NEW_FILE
    {
      this.id := id;
      var blank := new byte[PAGE_SIZE](i => if 0 <= i < HEADER then 0 else CLEAR);
      page := blank;
      log, lastReadPos, lastReadCount, bitmap, view := [], 0, 0, {}, NEW_FILE;
      new;
      var tail := page[HEADER..];
      forall k: nat | k < |tail| ensures !Bit(tail, k) {
        assert tail[|tail| - 1 - k] == page[HEADER + (|tail| - 1 - k)] == CLEAR;
      }
      assert page[..][HEADER..] == tail;
      assert MarksOf(page[..]) == {};
    }

    /** A new process finds the log and the page of an old one: exactly the marks written to
        the page are restored. */
    constructor Reopen(id: FileId, log: Bytes, page: array<byte>, bits: set<nat>, ghost was: LogFile)
      requires page.Length == PAGE_SIZE && was.log == log
      requires Word(page[..], 0) == was.storedPos % U32 && Word(page[..], 4) == was.storedCount % U32
      requires Binary(page[HEADER..]) && MarksOf(page[..]) == was.savedMarks
      requires bits == Bits(page[HEADER..])
      ensures Valid() && this.id == id && this.page == page && view == SyncFile.Reopen(was)
    {
      this.id, this.log, this.page := id, log, page;
      lastReadPos, lastReadCount, bitmap := 0, 0, bits;
      view := SyncFile.Reopen(was);
      new;
      assert page[..][HEADER..] == page[HEADER..];
    }

    method StoreHeader(at: nat, v: nat)
      requires page.Length == PAGE_SIZE && (at == 0 || at == 4 || at == 8)
      modifies page
      ensures page[..] == StoreWord(old(page[..]), at, v)
    {
      page[at] := LittleEndian(v, 0);
      page[at + 1] := LittleEndian(v, 1);
      page[at + 2] := LittleEndian(v, 2);
      page[at + 3] := LittleEndian(v, 3);
    }

    method SetLastReadPos(size: nat)
      requires Valid()
      modifies this`lastReadPos, this`view, page
      ensures Valid() && view == old(view).(pos := size, storedPos := size)
    {
      lastReadPos := size;
      StoreWordReadsBack(page[..], 0, size);
      StoreHeader(0, size);
      view := view.(pos := size, storedPos := size);
      assert page[..][HEADER..] == page[HEADER..];
    }

    method SetLastReadCount(cnt: nat)
      requires Valid()
      modifies this`lastReadCount, this`view, page
      ensures Valid() && view == old(view).(count := cnt, storedCount := cnt)
    {
      lastReadCount := cnt;
      StoreWordReadsBack(page[..], 4, cnt);
      StoreHeader(4, cnt);
      view := view.(count := cnt, storedCount := cnt);
      assert page[..][HEADER..] == page[HEADER..];
    }

    /** The bit in memory, the mark count of the header, and the mark byte. Positions whose byte
        lies in the header overwrite it. */
    method SetBitmap(pos: nat)
      requires Valid() && pos < PAGE_SIZE
      modifies this`bitmap, this`view, page
      ensures bitmap == old(bitmap) + {pos}
      ensures page[..] == StoreMark(StoreWord(old(page[..]), 8, Word(old(page[..]), 8) + 1), pos)
      ensures pos < MARK_CAPACITY ==>
                Valid() && view == old(view).(marks := old(view).marks + {pos}, savedMarks := old(view).savedMarks + {pos})
    {
      bitmap := bitmap + {pos};
      var synced := Word(page[..], 8);
      StoreWordReadsBack(page[..], 8, synced + 1);
      StoreHeader(8, synced + 1);
      StoreMarkReadsBack(page[..], pos);
      ghost var before := page[..];
      assert before[HEADER..] == page[HEADER..];
      page[PAGE_SIZE - 1 - pos] := SET;
      assert page[..] == StoreMark(before, pos);
      if pos < MARK_CAPACITY {
        assert page[..][HEADER..] == page[HEADER..];
        assert forall i :: 0 <= i < HEADER ==> page[..][i] == page[..][..HEADER][i] == before[..HEADER][i];
        view := view.(marks := view.marks + {pos}, savedMarks := view.savedMarks + {pos});
      }
    }

    method HasSynced(pos: nat) returns (r: bool)
      requires Valid()
      ensures r <==> pos in view.marks
    {
      r := pos in bitmap;
    }

    method FetchAccomplishCnt() returns (n: nat)
      requires Valid()
      ensures n == |view.marks|
    {
      n := |bitmap|;
    }

    /** The test of release_file on the mapped words and the size of the log. */
    method ReadyToDelete() returns (r: bool)
      requires Valid()
      ensures r <==> Releasable(view)
    {
      var readSize := Word(page[..], 0);
      var readCount := Word(page[..], 4);
      var done := FetchAccomplishCnt();
      r := |log| == readSize && readCount == done;
    }
  }

  class TaskPool {
    var tasks: seq<Task>

    method AddTask(t: Task)
      modifies this
      ensures tasks == old(tasks) + [t]
    {
      tasks := tasks + [t];
    }

    /** One round of a worker: the front task is run; it is dropped if it succeeded, with
        its mark set, and goes to the back otherwise. */
    method ExecRound(file: BinlogFile, reply: Reply)
      requires tasks != [] && file.Valid()
      requires tasks[0].rec.file == file.id && tasks[0].rec.index < MARK_CAPACITY
      modifies this, file`bitmap, file`view, file.page
      ensures file.Valid()
      ensures reply == TooOld || reply in {Code(200), Code(400), Code(412)} ==>
                && tasks == old(tasks)[1..]
                && file.view.marks == old(file.view).marks + {old(tasks)[0].rec.index}
                && file.view == old(file.view).(marks := file.view.marks,
                                                savedMarks := old(file.view).savedMarks + {old(tasks)[0].rec.index})
      ensures reply != TooOld && reply !in {Code(200), Code(400), Code(412)} ==>
                tasks == old(tasks)[1..] + [old(tasks)[0]] && file.view == old(file.view)
    {
      var task := tasks[0];
      tasks := tasks[1..];
      if Succeeds(reply) {
        file.SetBitmap(task.rec.index);
      } else {
        AddTask(task);
      }
    }
  }

  // ---------------------------------------------------------------- the reading loop

  /** What one pass over the log does to the file, and the tasks it hands over. */
  function ReadRest(f: LogFile, id: FileId): (LogFile, seq<Task>)
    requires f.stage.Idle?
    decreases |f.log| - f.pos
  {
    if !CanDeliver(f) then (f, [])
    else
      var rest := ReadRest(StoreCount(StorePos(f.(stage := Delivered))), id);
      (rest.0, LineTask(f, id) + rest.1)
  }

  /** The lines from `from` up to `upTo` that have no mark, in order, with their payloads. */
  function Unmarked(id: FileId, log: Bytes, marks: set<nat>, from: nat, upTo: nat): seq<Task>
    requires from <= upTo && HasLines(log, upTo)
    decreases upTo - from
  {
    if from == upTo then []
    else
      OffsetMonotone(log, from + 1, upTo);
      (if from in marks then [] else [Task(Rec(id, from), Payload(log, from))]) + Unmarked(id, log, marks, from + 1, upTo)
  }

  /** The task a line becomes, unless it has its mark. */
  function LineTask(f: LogFile, id: FileId): seq<Task>
    requires CanDeliver(f)
  {
    if f.count in f.marks then [] else [Task(Rec(id, f.count), NextPayload(f))]
  }

  /** The body of the reading loop: hand the line over, then store its end and its count. A line
      shorter than the prefix that has no mark ends the process. */
  method ReadLine(file: BinlogFile, pool: TaskPool) returns (died: bool)
    requires file.Valid() && HasNext(file.view)
    modifies file`lastReadPos, file`lastReadCount, file`view, file.page, pool
    ensures file.Valid()
    ensures died <==> !CanDeliver(old(file.view))
    ensures died ==> file.view == old(file.view) && pool.tasks == old(pool.tasks)
    ensures !died ==>
              && file.view == StoreCount(StorePos(old(file.view).(stage := Delivered)))
              && pool.tasks == old(pool.tasks) + LineTask(old(file.view), file.id)
  {
    hide FindLF, Word, MarksOf, Binary;
    var addr, count := file.lastReadPos, file.lastReadCount;
    var item := FindLF(file.log, addr);
    var synced := file.HasSynced(count);
    if !synced {
      if item - addr < PREFIX {
        return true;
      }
      pool.AddTask(Task(Rec(file.id, count), file.log[addr + PREFIX..item]));
    }
    file.SetLastReadPos(item + 1);
    file.SetLastReadCount(count + 1);
    died := false;
  }

  /** The reading loop of read_log over one file; the process dies exactly when the pass meets a
      complete line it cannot hand over. */
  method ReadLog(file: BinlogFile, pool: TaskPool) returns (died: bool)
    requires file.Valid() && FileInv(file.view) && file.view.stage.Idle?
    modifies file`lastReadPos, file`lastReadCount, file`view, file.page, pool
    ensures file.Valid()
    ensures file.view == ReadRest(old(file.view), file.id).0
    ensures pool.tasks == old(pool.tasks) + ReadRest(old(file.view), file.id).1
    ensures died <==> HasNext(file.view)
  {
    hide FileInv, FindLF, Word, MarksOf, Binary, LineTask;
    ghost var f0 := file.view;
    died := false;
    while file.lastReadPos <= |file.log|
          && FindLF(file.log, file.lastReadPos) < |file.log|
          && file.lastReadCount < MARK_CAPACITY
      invariant file.Valid() && FileInv(file.view) && file.view.stage.Idle?
      invariant ReadRest(f0, file.id).0 == ReadRest(file.view, file.id).0
      invariant old(pool.tasks) + ReadRest(f0, file.id).1 == pool.tasks + ReadRest(file.view, file.id).1
      decreases |file.log| - file.lastReadPos
    {
      ghost var f, tasks := file.view, pool.tasks;
      if CanDeliver(f) { ReadLineInv(f); }
      died := ReadLine(file, pool);
      if died {
        break;
      }
      ghost var rest := ReadRest(file.view, file.id).1;
      assert tasks + (LineTask(f, file.id) + rest) == tasks + LineTask(f, file.id) + rest;
    }
    assert pool.tasks + [] == pool.tasks;
  }

  lemma ReadLineInv(f: LogFile)
    requires FileInv(f) && CanDeliver(f)
    ensures var g := f.(stage := Delivered);
      CanStorePos(g) && FileInv(StoreCount(StorePos(g)))
    ensures var g := StoreCount(StorePos(f.(stage := Delivered)));
      g == f.(pos := FindLF(f.log, f.pos) + 1, storedPos := FindLF(f.log, f.pos) + 1,
              count := f.count + 1, storedCount := f.count + 1)
  {
    hide FileInv, FindLF;
    var g := f.(stage := Delivered);
    DeliverInv(f);
    StorePosInv(g);
    StoreCountInv(StorePos(g));
  }

  /** One pass hands over exactly the unmarked lines it passes, in order, each with its
      payload, and keeps the file invariant; it stops only where no further line can be
      delivered. */
  lemma {:induction false} ReadRestHandsOverUnmarked(f: LogFile, id: FileId)
    requires FileInv(f) && f.stage.Idle?
    ensures var (g, tasks) := ReadRest(f, id);
      && FileInv(g) && g.stage.Idle? && !CanDeliver(g)
      && g.log == f.log && g.marks == f.marks && g.savedMarks == f.savedMarks
      && f.count <= g.count && HasLines(g.log, g.count)
      && tasks == Unmarked(id, f.log, f.marks, f.count, g.count)
    decreases |f.log| - f.pos
  {
    hide FindLF, Offset, Payload, NextPayload;
    if CanDeliver(f) {
      ReadLineInv(f);
      DeliverInv(f);
      ReadRestHandsOverUnmarked(StoreCount(StorePos(f.(stage := Delivered))), id);
    }
  }

  /** Membership in the handed-over lines. */
  lemma {:induction false} UnmarkedExactly(id: FileId, log: Bytes, marks: set<nat>, from: nat, upTo: nat, i: nat)
    requires from <= upTo && HasLines(log, upTo)
    ensures (exists t :: t in Unmarked(id, log, marks, from, upTo) && t.rec == Rec(id, i)) <==> from <= i < upTo && i !in marks
    decreases upTo - from
  {
    hide Payload, HasLines;
    if from < upTo {
      OffsetMonotone(log, from + 1, upTo);
      UnmarkedExactly(id, log, marks, from + 1, upTo, i);
      var first := if from in marks then [] else [Task(Rec(id, from), Payload(log, from))];
      var rest := Unmarked(id, log, marks, from + 1, upTo);
      assert Unmarked(id, log, marks, from, upTo) == first + rest;
      if i == from && i !in marks {
        assert first[0] in first + rest;
      } else if from < i < upTo && i !in marks {
        var t :| t in rest && t.rec == Rec(id, i);
        assert t in first + rest;
      }
    }
  }

  /** After a restart the marks are exactly those on the page, and the next pass hands over every
      line it reaches that has none, from the first line on. */
  lemma RestartRedelivers(f: LogFile, id: FileId, i: nat)
    requires FileInv(f)
    ensures var (g, tasks) := ReadRest(SyncFile.Reopen(f), id);
      && FileInv(g) && g.marks == f.savedMarks && !CanDeliver(g)
      && ((exists t :: t in tasks && t.rec == Rec(id, i)) <==> i < g.count && i !in f.savedMarks)
  {
    hide FileInv, ReadRest, CanDeliver, HasLines;
    ReopenInv(f);
    ReadRestHandsOverUnmarked(SyncFile.Reopen(f), id);
    var g := ReadRest(SyncFile.Reopen(f), id).0;
    UnmarkedExactly(id, f.log, f.savedMarks, 0, g.count, i);
  }

  // ---------------------------------------------------------------- the releaser

  class Releaser {
    var queue: seq<BinlogFile>

    /** One call of release_file: the front file is deleted if its test passes and goes to
        the back otherwise. */
    method ReleaseFile() returns (deleted: BinlogFile?)
      requires forall i :: 0 <= i < |queue| ==> queue[i].Valid()
      modifies this
      ensures old(queue) == [] ==> deleted == null && queue == []
      ensures old(queue) != [] && Releasable(old(queue)[0].view) ==>
                deleted == old(queue)[0] && queue == old(queue)[1..]
      ensures old(queue) != [] && !Releasable(old(queue)[0].view) ==>
                deleted == null && queue == old(queue)[1..] + [old(queue)[0]]
    {
      deleted := null;
      if queue != [] {
        var file := queue[0];
        queue := queue[1..];
        var ready := file.ReadyToDelete();
        if ready {
          deleted := file;
        } else {
          queue := queue + [file];
        }
      }
    }
  }
}
