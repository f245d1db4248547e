/** What the sync daemon guarantees over whole runs. */
module SyncSafety {
  import opened Bytes
  import opened SyncLines
  import opened SyncFile
  import opened SyncModel

  /** The number of tasks, queued or running, for a record. */
  ghost function Holders(s: State, r: Rec): nat {
    |set i: nat | i < |s.queue| && s.queue[i].rec == r| +
    |set w | w in s.running && s.running[w].task.rec == r|
  }

  lemma AtMostOne<T>(x: set<T>)
    requires forall a, b :: a in x && b in x ==> a == b
    ensures |x| <= 1
  {
    if x != {} {
      var a :| a in x;
      assert x == {a};
    }
  }

  lemma HoldersCount(s: State, r: Rec)
    requires OneHolder(s)
    ensures Holders(s, r) <= 1
    ensures Holders(s, r) == 1 <==> InQueue(s, r) || InProgress(s, r)
  {
    var q := set i: nat | i < |s.queue| && s.queue[i].rec == r;
    var p := set w | w in s.running && s.running[w].task.rec == r;
    AtMostOne(q);
    AtMostOne(p);
    if InQueue(s, r) {
      var i: nat :| i < |s.queue| && s.queue[i].rec == r;
      assert i in q;
      assert p == {};
    } else if InProgress(s, r) {
      var w :| w in s.running && s.running[w].task.rec == r;
      assert w in p;
      assert q == {};
    } else {
      assert q == {} && p == {};
    }
  }

  /** At step k a worker with the record's task got the answer 200, 400 or 412, or found the
      record expired. */
  ghost predicate DoneAt(steps: seq<Step>, k: nat, w: WorkerId, r: Rec) {
    && k < |steps| && Exec(steps[..k]).Some?
    && InPhase(Exec(steps[..k]).value, w, Sending) && Exec(steps[..k]).value.running[w].task.rec == r
    && (steps[k] == Expired(w) ||
        (steps[k].Answer? && steps[k].worker == w && steps[k].code in {200, 400, 412}))
  }

  ghost predicate Done(steps: seq<Step>, r: Rec) {
    exists k, w :: DoneAt(steps, k, w, r)
  }

  /** What one step settles: the record of a task that was accepted or is expired, and no other. */
  lemma StepSettles(s: State, step: Step, r: Rec)
    requires Enabled(s, step) && r in Apply(s, step).settled && r !in s.settled
    ensures step.Expired? || (step.Answer? && step.code in {200, 400, 412})
    ensures InPhase(s, step.worker, Sending) && s.running[step.worker].task.rec == r
  {
    hide FindLF, Offset, Releasable, CanDeliver, CanStorePos;
  }

  lemma DoneStays(steps: seq<Step>, step: Step, r: Rec)
    requires Done(steps, r)
    ensures Done(steps + [step], r)
  {
    hide Exec;
    var k: nat, w: WorkerId :| DoneAt(steps, k, w, r);
    assert (steps + [step])[..k] == steps[..k];
    assert DoneAt(steps + [step], k, w, r);
  }

  /** In every run a settled record was answered 200, 400 or 412 by a backend, or found expired,
      at some step of the run. */
  lemma {:induction false} SettledWasDone(steps: seq<Step>, r: Rec)
    requires Exec(steps).Some? && r in Exec(steps).value.settled
    ensures Done(steps, r)
    decreases |steps|
  {
    hide Apply, Enabled;
    if steps != [] {
      var before, step := steps[..|steps| - 1], steps[|steps| - 1];
      var s := Exec(before).value;
      assert before + [step] == steps;
      if r in s.settled {
        SettledWasDone(before, r);
        DoneStays(before, step, r);
      } else {
        StepSettles(s, step, r);
        assert DoneAt(steps, |steps| - 1, step.worker, r);
      }
    }
  }

  lemma StepKeepsSettled(s: State, step: Step)
    requires Enabled(s, step)
    ensures s.settled <= Apply(s, step).settled
  {
    hide FindLF, Offset, Releasable, CanDeliver, CanStorePos;
  }

  lemma {:induction false} DoneIsSettled(steps: seq<Step>, r: Rec)
    requires Exec(steps).Some? && Done(steps, r)
    ensures r in Exec(steps).value.settled
    decreases |steps|
  {
    var k: nat, w: WorkerId :| DoneAt(steps, k, w, r);
    var before, step := steps[..|steps| - 1], steps[|steps| - 1];
    var s := Exec(before).value;
    if k == |steps| - 1 {
      AppliedSettles(s, step);
    } else {
      hide Apply, Enabled;
      assert before[..k] == steps[..k];
      assert DoneAt(before, k, w, r);
      DoneIsSettled(before, r);
      StepKeepsSettled(s, step);
    }
  }

  lemma AppliedSettles(s: State, step: Step)
    requires Enabled(s, step) && (step.Expired? || (step.Answer? && step.code in {200, 400, 412}))
    ensures s.running[step.worker].task.rec in Apply(s, step).settled
  {
  }

  /** An answer settles the record and keeps the task with its worker exactly for 200, 400 and
      412; after any other, and when nothing was sent, the task is at the back of the queue. */
  lemma AnswerExact(s: State, w: WorkerId, code: int)
    requires Enabled(s, Answer(w, code)) && s.running[w].task.rec !in s.settled
    ensures var task := s.running[w].task; var t := Apply(s, Answer(w, code));
      && (task.rec in t.settled <==> code in {200, 400, 412})
      && (code in {200, 400, 412} ==> t.queue == s.queue && InPhase(t, w, Settled))
      && (code !in {200, 400, 412} ==> t == Apply(s, Unsent(w)))
    ensures var task := s.running[w].task; var t := Apply(s, Unsent(w));
      t.settled == s.settled && t.queue == s.queue + [task] && t.running == s.running - {w}
  {
  }

  /** In every state of every run each line handed over is either marked, and then was
      accepted or expired, or is held by exactly one task; a marked line has at most the
      task that is writing its mark byte. */
  lemma NoRecordLost(steps: seq<Step>, f: FileId, i: nat)
    requires Exec(steps).Some? && f in Exec(steps).value.files
    requires i < DeliveredCount(Exec(steps).value.files[f])
    ensures var s := Exec(steps).value;
      if i in s.files[f].marks then Done(steps, Rec(f, i)) && Holders(s, Rec(f, i)) <= 1
      else Holders(s, Rec(f, i)) == 1
  {
    hide Exec, Holders, Done;
    RunKeeps(steps);
    var s := Exec(steps).value;
    assert Holds(s, f, i);
    if i in s.files[f].marks { SettledWasDone(steps, Rec(f, i)); }
    HoldersCount(s, Rec(f, i));
  }

  /** Every task carries the payload of the line it stands for. */
  lemma TasksCarryTheirLine(steps: seq<Step>, k: nat)
    requires Exec(steps).Some? && k < |Exec(steps).value.queue|
    requires Exec(steps).value.queue[k].rec.file in Exec(steps).value.files
    ensures var s := Exec(steps).value; var t := s.queue[k]; var f := s.files[t.rec.file];
      && IsLine(f.log, t.rec.index) && t.rec.index !in f.marks
      && var line := Line(f.log, t.rec.index); t.data == if |line| < 32 then [] else line[32..]
  {
    hide Exec, FileInv, IsLine;
    RunKeeps(steps);
  }

  /** A deleted log had the marks of all its lines, and so lost no record, exactly when its header
      was not torn at that moment. */
  lemma ReleaseSafety(steps: seq<Step>, f: FileId)
    requires Exec(steps).Some? && f in Exec(steps).value.released
    ensures var s := Exec(steps).value; var r := s.released[f];
      && AtLineEnd(r.file.log, |r.file.log|)
      && (!r.torn <==> forall i: nat :: IsLine(r.file.log, i) ==> i in r.file.marks)
      && (!r.torn ==> forall i: nat :: IsLine(r.file.log, i) ==> Done(steps, Rec(f, i)))
  {
    hide Exec, AtLineEnd, IsLine, Done;
    RunKeeps(steps);
    var s := Exec(steps).value;
    assert ReleasedOk(s, f);
    forall i: nat | IsLine(s.released[f].file.log, i) && i in s.released[f].file.marks ensures Done(steps, Rec(f, i)) {
      SettledWasDone(steps, Rec(f, i));
    }
  }

  /** Marks come after the answer, so the line a torn log is missing may have been accepted. The
      log lacks the mark of one line only, and all its lines were settled exactly when that
      line was. */
  lemma TornReleaseMissesOne(steps: seq<Step>, f: FileId) returns (i: nat)
    requires Exec(steps).Some? && f in Exec(steps).value.released && Exec(steps).value.released[f].torn
    ensures var s := Exec(steps).value; var r := s.released[f];
      && IsLine(r.file.log, i) && i !in r.file.marks
      && (forall j: nat :: IsLine(r.file.log, j) && j != i ==> j in r.file.marks)
      && ((forall j: nat :: IsLine(r.file.log, j) ==> Done(steps, Rec(f, j))) <==> Done(steps, Rec(f, i)))
  {
    hide Exec, AtLineEnd, IsLine, FullyMarked, Done;
    RunKeeps(steps);
    var s := Exec(steps).value;
    assert ReleasedOk(s, f);
    i :| Misses(s.released[f].file, i);
    forall j: nat | j in s.released[f].file.marks ensures Done(steps, Rec(f, j)) {
      SettledWasDone(steps, Rec(f, j));
    }
  }

  // ---------------------------------------------------------------- careful runs

  /** Neither a deletion nor a restart falls between the two header stores of a line. */
  predicate CarefulStep(s: State, step: Step) {
    && (step.Release? ==> step.file in s.files && !s.files[step.file].stage.PosStored?)
    && (step.Restart? ==> forall f :: f in s.files ==> !s.files[f].stage.PosStored?)
  }

  predicate Careful(steps: seq<Step>)
    decreases |steps|
  {
    steps == [] ||
    (var before := steps[..|steps| - 1];
     && Careful(before)
     && (Exec(before).Some? ==> CarefulStep(Exec(before).value, steps[|steps| - 1])))
  }

  ghost predicate HeaderOk(f: LogFile) {
    if f.stage.PosStored? then f.storedPos == f.pos else !Torn(f)
  }

  ghost predicate NeverTorn(s: State) {
    && (forall f :: f in s.files ==> HeaderOk(s.files[f]))
    && (forall f :: f in s.released ==> !s.released[f].torn)
  }

  lemma FileStepKeepsHeader(s: State, step: Step)
    requires Inv(s) && NeverTorn(s) && Enabled(s, step)
    requires step.Create? || step.Append? || step.Deliver? || step.WritePos? || step.WriteCount?
    ensures NeverTorn(Apply(s, step))
  {
    hide FileInv, Offset, FindLF, OneHolder, TasksOk, Covered, MarksSettled;
    match step
    case Create(f) => assert !Torn(NEW_FILE) by { NewFileNotTorn(); }
    case Append(f, bytes) => AppendInv(s.files[f], bytes);
    case Deliver(f) =>
    case WritePos(f) =>
    case WriteCount(f) => StoreCountInv(s.files[f]);
  }

  lemma NewFileNotTorn()
    ensures !Torn(NEW_FILE)
  {
  }

  lemma WorkerStepKeepsHeader(s: State, step: Step)
    requires NeverTorn(s) && Enabled(s, step)
    requires step.Pop? || step.Answer? || step.Unsent? || step.Expired? || step.Mark? || step.SaveMark?
    ensures NeverTorn(Apply(s, step))
  {
    hide Offset, FindLF;
  }

  lemma CarefulStepKeepsHeader(s: State, step: Step)
    requires Inv(s) && NeverTorn(s) && Enabled(s, step) && CarefulStep(s, step)
    ensures NeverTorn(Apply(s, step))
  {
    hide Offset, FindLF, Releasable, OneHolder, TasksOk, Covered, MarksSettled, CanDeliver, CanStorePos;
    match step
    case Release(f) =>
    case Restart =>
      forall f | f in s.files ensures !Torn(Reopen(s.files[f])) {
        ReopenInv(s.files[f]);
      }
    case _ =>
      if step.Pop? || step.Answer? || step.Unsent? || step.Expired? || step.Mark? || step.SaveMark? {
        WorkerStepKeepsHeader(s, step);
      } else {
        FileStepKeepsHeader(s, step);
      }
  }

  lemma {:induction false} CarefulRunKeepsHeader(steps: seq<Step>)
    requires Exec(steps).Some? && Careful(steps)
    ensures NeverTorn(Exec(steps).value)
    decreases |steps|
  {
    hide Inv, Apply, NeverTorn, CarefulStep;
    if steps == [] {
      InitNeverTorn();
    } else {
      var before := steps[..|steps| - 1];
      CarefulRunKeepsHeader(before);
      RunKeeps(before);
      CarefulStepKeepsHeader(Exec(before).value, steps[|steps| - 1]);
    }
  }

  lemma InitNeverTorn()
    ensures NeverTorn(INIT)
  {
  }

  /** If no deletion and no restart falls between the two header stores of a line, every line of
      every deleted log was answered 200, 400 or 412 by a backend or found expired. */
  lemma CarefulRunLosesNothing(steps: seq<Step>, f: FileId, i: nat)
    requires Exec(steps).Some? && Careful(steps)
    requires f in Exec(steps).value.released && IsLine(Exec(steps).value.released[f].file.log, i)
    ensures Done(steps, Rec(f, i))
  {
    hide Exec, Careful, IsLine, AtLineEnd, Done;
    CarefulRunKeepsHeader(steps);
    ReleaseSafety(steps, f);
  }

  // ---------------------------------------------------------------- a run that loses a record

  /** A single whole line with room for the prefix. */
  predicate OneLine(line: Bytes) {
    && PREFIX < |line| < U32
    && line[|line| - 1] == LF
    && forall i :: 0 <= i < |line| - 1 ==> line[i] != LF
  }

  function LosingRun(line: Bytes): seq<Step> {
    [Create(0), Append(0, line), Deliver(0), WritePos(0), Release(0)]
  }

  lemma ExecOne(steps: seq<Step>, step: Step, s: State)
    requires Exec(steps) == Some(s) && Enabled(s, step)
    ensures Exec(steps + [step]) == Some(Apply(s, step))
  {
  }

  lemma ExecNothing()
    ensures Exec([]) == Some(INIT)
  {
  }

  lemma LineFacts(line: Bytes)
    requires OneLine(line)
    ensures FindLF(line, 0) == |line| - 1 && IsLine(line, 0)
  {
  }

  /** The first states of the losing run. */
  function Losing(line: Bytes, k: nat): State
    requires OneLine(line)
  {
    var f := NEW_FILE.(log := line);
    var queue := [Task(Rec(0, 0), line[PREFIX..|line| - 1])];
    if k == 0 then INIT
    else if k == 1 then INIT.(files := map[0 := NEW_FILE])
    else if k == 2 then INIT.(files := map[0 := f])
    else if k == 3 then INIT.(files := map[0 := f.(stage := Delivered)], queue := queue)
    else INIT.(files := map[0 := f.(pos := |line|, storedPos := |line|, stage := PosStored)], queue := queue)
  }

  lemma LosingStep(line: Bytes, k: nat)
    requires OneLine(line) && k < 4
    ensures Enabled(Losing(line, k), LosingRun(line)[k])
    ensures Apply(Losing(line, k), LosingRun(line)[k]) == Losing(line, k + 1)
  {
    hide FindLF, Offset, IsLine, Torn;
    LineFacts(line);
    var step, next := LosingRun(line)[k], Losing(line, k + 1);
    if k == 0 {
      assert step == Create(0);
    } else if k == 1 {
      assert [] + line == line;
      assert step == Append(0, line);
    } else if k == 2 {
      assert step == Deliver(0);
      assert [] + next.queue == next.queue;
    } else {
      assert step == WritePos(0);
    }
  }

  lemma {:induction false} LosingPrefix(line: Bytes, k: nat)
    requires OneLine(line) && k <= 4
    ensures Exec(LosingRun(line)[..k]) == Some(Losing(line, k))
  {
    hide Exec, Apply, Enabled;
    var run := LosingRun(line);
    if k == 0 {
      ExecNothing();
    } else {
      LosingPrefix(line, k - 1);
      LosingStep(line, k - 1);
      ExecOne(run[..k - 1], run[k - 1], Losing(line, k - 1));
      assert run[..k] == run[..k - 1] + [run[k - 1]];
    }
  }

  /** Deleting between the two stores of the first line loses it, whatever the line: the
      header already holds the full size and still holds count 0, the number of marks. */
  lemma LosingRunLosesARecord(line: Bytes)
    requires OneLine(line)
    ensures Exec(LosingRun(line)).Some?
    ensures var s := Exec(LosingRun(line)).value;
      && 0 in s.released && s.released[0].file.log == line && IsLine(line, 0)
      && Rec(0, 0) !in s.settled && !Done(LosingRun(line), Rec(0, 0))
  {
    hide Exec, Offset, FindLF, Done;
    var run := LosingRun(line);
    LineFacts(line);
    LosingPrefix(line, 4);
    ExecOne(run[..4], Release(0), Losing(line, 4));
    assert run == run[..4] + [Release(0)];
    if Done(run, Rec(0, 0)) {
      DoneIsSettled(run, Rec(0, 0));
    }
  }
}
