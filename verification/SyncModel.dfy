/** The sync daemon as a state machine: a reader, a pool of workers and a releaser act on
    shared files in any order, and the process may stop and start again at any point.
    Each step is one critical section or one store to the mapped status page. */
module SyncModel {
  import opened Bytes
  import opened SyncLines
  import opened SyncFile

  type FileId = nat
  type WorkerId = nat

  /** One line of one file. */
  datatype Rec = Rec(file: FileId, index: nat)

  datatype Task = Task(rec: Rec, data: Bytes)

  /** A worker's progress with its task: sending, answered (or found expired), and marked
      in memory with the mark byte still to be written. */
  datatype Phase = Sending | Settled | Marked

  datatype Job = Job(task: Task, phase: Phase)

  /** A deleted log, the marks it had, and whether its header was torn. */
  datatype Released = Released(file: LogFile, torn: bool)

  /** `settled` remembers every record the backend accepted or that was found expired;
      `released` every deleted file. */
  datatype State = State(
    files: map<FileId, LogFile>,
    queue: seq<Task>,
    running: map<WorkerId, Job>,
    settled: set<Rec>,
    released: map<FileId, Released>)

  const INIT: State := State(map[], [], map[], {}, map[])

  datatype Step =
    | Create(file: FileId)
    | Append(file: FileId, bytes: Bytes)
    | Deliver(file: FileId)
    | WritePos(file: FileId)
    | WriteCount(file: FileId)
    | Pop(worker: WorkerId)
    | Answer(worker: WorkerId, code: int)
    | Unsent(worker: WorkerId)
    | Expired(worker: WorkerId)
    | Mark(worker: WorkerId)
    | SaveMark(worker: WorkerId)
    | Release(file: FileId)
    | Restart

  /** The answers after which a record is not sent again. */
  predicate Accepted(code: int) {
    code == 200 || code == 400 || code == 412
  }

  /** How sending a task ended: nothing was sent or answered, an answer came, or the record
      was found expired and not sent. */
  datatype Reply = NoAnswer | Code(code: int) | TooOld

  /** The tasks that are done: Task::operator() returns true. */
  predicate Succeeds(r: Reply) {
    r.TooOld? || (r.Code? && Accepted(r.code))
  }

  predicate InPhase(s: State, w: WorkerId, p: Phase) {
    w in s.running && s.running[w].phase == p
  }

  predicate Enabled(s: State, step: Step) {
    match step
    case Create(f) => f !in s.files && f !in s.released
    case Append(f, _) => f in s.files
    case Deliver(f) => f in s.files && CanDeliver(s.files[f])
    case WritePos(f) => f in s.files && CanStorePos(s.files[f])
    case WriteCount(f) => f in s.files && s.files[f].stage.PosStored?
    case Pop(w) => s.queue != [] && w !in s.running
    case Answer(w, _) => InPhase(s, w, Sending)
    case Unsent(w) => InPhase(s, w, Sending)
    case Expired(w) => InPhase(s, w, Sending)
    case Mark(w) => InPhase(s, w, Settled)
    case SaveMark(w) => InPhase(s, w, Marked)
    case Release(f) => f in s.files && Releasable(s.files[f])
    case Restart => true
  }

  function SetFile(s: State, f: FileId, g: LogFile): State {
    s.(files := s.files[f := g])
  }

  /** The worker gives up its task, which goes to the back of the queue. */
  function Requeue(s: State, w: WorkerId): State
    requires w in s.running
  {
    s.(queue := s.queue + [s.running[w].task], running := s.running - {w})
  }

  function Settle(s: State, w: WorkerId): State
    requires w in s.running
  {
    s.(running := s.running[w := s.running[w].(phase := Settled)],
       settled := s.settled + {s.running[w].task.rec})
  }

  function DeliverNext(s: State, f: FileId): State
    requires f in s.files && CanDeliver(s.files[f])
  {
    var g := s.files[f];
    var moved := SetFile(s, f, g.(stage := Delivered));
    if g.count in g.marks then moved
    else moved.(queue := s.queue + [Task(Rec(f, g.count), NextPayload(g))])
  }

  /** set_bitmap up to its unlock: the bit in memory. A file already deleted has none. */
  function MarkInMemory(s: State, w: WorkerId): State
    requires w in s.running
  {
    var r := s.running[w].task.rec;
    var t := s.(running := s.running[w := s.running[w].(phase := Marked)]);
    if r.file in s.files then
      SetFile(t, r.file, s.files[r.file].(marks := s.files[r.file].marks + {r.index}))
    else t
  }

  /** The rest of set_bitmap: the byte of the status page, after which the task is done. */
  function MarkOnPage(s: State, w: WorkerId): State
    requires w in s.running
  {
    var r := s.running[w].task.rec;
    var t := s.(running := s.running - {w});
    if r.file in s.files then
      SetFile(t, r.file, s.files[r.file].(savedMarks := s.files[r.file].savedMarks + {r.index}))
    else t
  }

  function DoRelease(s: State, f: FileId): State
    requires f in s.files
  {
    s.(files := s.files - {f}, released := s.released[f := Released(s.files[f], Torn(s.files[f]))])
  }

  function DoRestart(s: State): State {
    s.(files := map f | f in s.files :: Reopen(s.files[f]), queue := [], running := map[])
  }

  function Apply(s: State, step: Step): State
    requires Enabled(s, step)
  {
    match step
    case Create(f) => SetFile(s, f, NEW_FILE)
    case Append(f, bytes) => SetFile(s, f, s.files[f].(log := s.files[f].log + bytes))
    case Deliver(f) => DeliverNext(s, f)
    case WritePos(f) => SetFile(s, f, StorePos(s.files[f]))
    case WriteCount(f) => SetFile(s, f, StoreCount(s.files[f]))
    case Pop(w) => s.(queue := s.queue[1..], running := s.running[w := Job(s.queue[0], Sending)])
    case Answer(w, code) => if Accepted(code) then Settle(s, w) else Requeue(s, w)
    case Unsent(w) => Requeue(s, w)
    case Expired(w) => Settle(s, w)
    case Mark(w) => MarkInMemory(s, w)
    case SaveMark(w) => MarkOnPage(s, w)
    case Release(f) => DoRelease(s, f)
    case Restart => DoRestart(s)
  }

  /** The state after a run, if every step was possible when taken. */
  function Exec(steps: seq<Step>): Option<State>
    decreases |steps|
  {
    if steps == [] then Some(INIT)
    else
      match Exec(steps[..|steps| - 1])
      case None => None
      case Some(s) =>
        var step := steps[|steps| - 1];
        if Enabled(s, step) then Some(Apply(s, step)) else None
  }

  // ---------------------------------------------------------------- the invariant

  ghost predicate InQueue(s: State, r: Rec) {
    exists i :: 0 <= i < |s.queue| && s.queue[i].rec == r
  }

  ghost predicate InProgress(s: State, r: Rec) {
    exists w :: w in s.running && s.running[w].task.rec == r
  }

  /** No two tasks, queued or running, are for the same record. */
  ghost predicate OneHolder(s: State) {
    && (forall i, j :: 0 <= i < j < |s.queue| ==> s.queue[i].rec != s.queue[j].rec)
    && (forall w, v :: w in s.running && v in s.running && w != v ==>
          s.running[w].task.rec != s.running[v].task.rec)
    && (forall i, w :: 0 <= i < |s.queue| && w in s.running ==>
          s.queue[i].rec != s.running[w].task.rec)
  }

  /** A task is for a line handed over, carries that line's payload, and the line has its
      mark in memory exactly if `marked`. */
  ghost predicate TaskOk(f: LogFile, t: Task, marked: bool) {
    && t.rec.index < DeliveredCount(f)
    && IsLine(f.log, t.rec.index)
    && t.data == Payload(f.log, t.rec.index)
    && (t.rec.index in f.marks <==> marked)
  }

  ghost predicate Known(s: State, f: FileId) {
    f in s.files || f in s.released
  }

  ghost predicate TasksOk(s: State) {
    && (forall i :: 0 <= i < |s.queue| ==> Known(s, s.queue[i].rec.file))
    && (forall w :: w in s.running ==> Known(s, s.running[w].task.rec.file))
    && (forall i :: 0 <= i < |s.queue| && s.queue[i].rec.file in s.files ==>
          TaskOk(s.files[s.queue[i].rec.file], s.queue[i], false))
    && (forall w :: w in s.running && s.running[w].task.rec.file in s.files ==>
          TaskOk(s.files[s.running[w].task.rec.file], s.running[w].task, s.running[w].phase.Marked?))
  }

  /** Line i of file f has its mark or a task. */
  ghost predicate Holds(s: State, f: FileId, i: nat)
    requires f in s.files
  {
    i in s.files[f].marks || InQueue(s, Rec(f, i)) || InProgress(s, Rec(f, i))
  }

  /** Nothing handed over is forgotten. */
  ghost predicate Covered(s: State) {
    forall f, i: nat :: f in s.files && i < DeliveredCount(s.files[f]) ==> Holds(s, f, i)
  }

  /** Marks stand for records that were accepted or expired. */
  ghost predicate MarksSettled(s: State) {
    && (forall w :: w in s.running && !s.running[w].phase.Sending? ==> s.running[w].task.rec in s.settled)
    && (forall f, i: nat :: f in s.files && i in s.files[f].marks ==> Rec(f, i) in s.settled)
  }

  ghost predicate FilesOk(s: State) {
    forall f :: f in s.files ==> FileInv(s.files[f])
  }

  /** A deleted log was whole lines; all were accepted or expired unless the header was torn. */
  ghost predicate ReleasedOk(s: State, f: FileId)
    requires f in s.released
  {
    var r := s.released[f];
    && AtLineEnd(r.file.log, |r.file.log|)
    && (FullyMarked(r.file) <==> !r.torn)
    && (r.torn ==> MissesOne(r.file))
    && (forall i :: i in r.file.marks ==> Rec(f, i) in s.settled)
  }

  ghost predicate Inv(s: State) {
    && FilesOk(s)
    && OneHolder(s)
    && TasksOk(s)
    && Covered(s)
    && MarksSettled(s)
    && (forall f :: f in s.released ==> ReleasedOk(s, f))
  }

  // ---------------------------------------------------------------- steps keep it

  lemma SetFileKeeps(s: State, f: FileId, g: LogFile)
    requires Inv(s) && f in s.files && FileInv(g)
    requires g.log == s.files[f].log && g.marks == s.files[f].marks
    requires DeliveredCount(g) == DeliveredCount(s.files[f])
    ensures Inv(SetFile(s, f, g))
  {
    hide FileInv, DeliveredCount, IsLine, Payload, FullyMarked, AtLineEnd;
    var t := SetFile(s, f, g);
    forall h, i: nat | h in t.files && i < DeliveredCount(t.files[h])
      ensures Holds(t, h, i)
    {
      assert Holds(s, h, i);
    }
  }

  lemma CreateKeeps(s: State, f: FileId)
    requires Inv(s) && Enabled(s, Create(f))
    ensures Inv(Apply(s, Create(f)))
  {
    hide FileInv, IsLine, Payload, FullyMarked, AtLineEnd;
    NewFileInv();
    var t := SetFile(s, f, NEW_FILE);
    forall h, i: nat | h in t.files && i < DeliveredCount(t.files[h])
      ensures Holds(t, h, i)
    {
      assert Holds(s, h, i);
    }
  }

  lemma AppendKeepsTask(f: LogFile, more: Bytes, t: Task, marked: bool)
    requires TaskOk(f, t, marked)
    ensures TaskOk(f.(log := f.log + more), t, marked)
  {
    LineAppend(f.log, more, t.rec.index);
  }

  lemma AppendKeeps(s: State, f: FileId, more: Bytes)
    requires Inv(s) && Enabled(s, Append(f, more))
    ensures Inv(Apply(s, Append(f, more)))
  {
    hide FileInv, TaskOk, FullyMarked, AtLineEnd;
    AppendInv(s.files[f], more);
    var t := Apply(s, Append(f, more));
    forall i | 0 <= i < |t.queue| && t.queue[i].rec.file in t.files
      ensures TaskOk(t.files[t.queue[i].rec.file], t.queue[i], false)
    {
      if t.queue[i].rec.file == f { AppendKeepsTask(s.files[f], more, t.queue[i], false); }
    }
    forall w | w in t.running && t.running[w].task.rec.file in t.files
      ensures TaskOk(t.files[t.running[w].task.rec.file], t.running[w].task, t.running[w].phase.Marked?)
    {
      if t.running[w].task.rec.file == f {
        AppendKeepsTask(s.files[f], more, t.running[w].task, t.running[w].phase.Marked?);
      }
    }
    forall h, i: nat | h in t.files && i < DeliveredCount(t.files[h])
      ensures Holds(t, h, i)
    {
      assert Holds(s, h, i);
    }
  }

  lemma DeliverKeepsCovered(s: State, f: FileId)
    requires Covered(s) && Enabled(s, Deliver(f))
    ensures Covered(DeliverNext(s, f))
  {
    hide CanDeliver, NextPayload;
    var g := s.files[f];
    var t := DeliverNext(s, f);
    forall h, i: nat | h in t.files && i < DeliveredCount(t.files[h])
      ensures Holds(t, h, i)
    {
      if h == f && i == g.count {
        assert g.count in g.marks || t.queue[|t.queue| - 1].rec == Rec(f, i);
      } else {
        assert Holds(s, h, i);
        if InQueue(s, Rec(h, i)) {
          var k :| 0 <= k < |s.queue| && s.queue[k].rec == Rec(h, i);
          assert t.queue[k] == s.queue[k];
        }
      }
    }
  }

  lemma DeliverKeeps(s: State, f: FileId)
    requires Inv(s) && Enabled(s, Deliver(f))
    ensures Inv(Apply(s, Deliver(f)))
  {
    hide FileInv, IsLine, Payload, FindLF, NextPayload, FullyMarked, AtLineEnd, Holds, InQueue, InProgress;
    DeliverInv(s.files[f]);
    DeliverKeepsCovered(s, f);
  }

  lemma PopKeepsCovered(s: State, w: WorkerId)
    requires Covered(s) && Enabled(s, Pop(w))
    ensures Covered(Apply(s, Pop(w)))
  {
    hide DeliveredCount;
    var t := Apply(s, Pop(w));
    assert forall i :: 0 <= i < |t.queue| ==> t.queue[i] == s.queue[i + 1];
    forall h, i: nat | h in t.files && i < DeliveredCount(t.files[h])
      ensures Holds(t, h, i)
    {
      assert Holds(s, h, i);
      if InQueue(s, Rec(h, i)) {
        var k :| 0 <= k < |s.queue| && s.queue[k].rec == Rec(h, i);
        if k == 0 { assert t.running[w].task == s.queue[0]; } else { assert t.queue[k - 1] == s.queue[k]; }
      } else if InProgress(s, Rec(h, i)) {
        var v :| v in s.running && s.running[v].task.rec == Rec(h, i);
        assert t.running[v] == s.running[v];
      }
    }
  }

  lemma PopKeeps(s: State, w: WorkerId)
    requires Inv(s) && Enabled(s, Pop(w))
    ensures Inv(Apply(s, Pop(w)))
  {
    hide FileInv, TaskOk, DeliveredCount, FullyMarked, AtLineEnd, Holds, InQueue, InProgress;
    PopKeepsCovered(s, w);
  }

  lemma RequeueKeepsCovered(s: State, w: WorkerId)
    requires Covered(s) && InPhase(s, w, Sending)
    ensures Covered(Requeue(s, w))
  {
    hide DeliveredCount;
    var t := Requeue(s, w);
    forall h, i: nat | h in t.files && i < DeliveredCount(t.files[h])
      ensures Holds(t, h, i)
    {
      assert Holds(s, h, i);
      if InQueue(s, Rec(h, i)) {
        var k :| 0 <= k < |s.queue| && s.queue[k].rec == Rec(h, i);
        assert t.queue[k] == s.queue[k];
      } else if InProgress(s, Rec(h, i)) {
        var v :| v in s.running && s.running[v].task.rec == Rec(h, i);
        if v == w { assert t.queue[|s.queue|] == s.running[w].task; } else { assert t.running[v] == s.running[v]; }
      }
    }
  }

  lemma RequeueKeeps(s: State, w: WorkerId)
    requires Inv(s) && InPhase(s, w, Sending)
    ensures Inv(Requeue(s, w))
  {
    hide FileInv, TaskOk, DeliveredCount, FullyMarked, AtLineEnd, Holds, InQueue, InProgress;
    RequeueKeepsCovered(s, w);
  }

  lemma SettleKeepsCovered(s: State, w: WorkerId)
    requires Covered(s) && InPhase(s, w, Sending)
    ensures Covered(Settle(s, w))
  {
    hide DeliveredCount;
    var t := Settle(s, w);
    forall h, i: nat | h in t.files && i < DeliveredCount(t.files[h])
      ensures Holds(t, h, i)
    {
      assert Holds(s, h, i);
      if InProgress(s, Rec(h, i)) {
        var v :| v in s.running && s.running[v].task.rec == Rec(h, i);
        assert t.running[v].task == s.running[v].task;
      }
    }
  }

  lemma SettleKeeps(s: State, w: WorkerId)
    requires Inv(s) && InPhase(s, w, Sending)
    ensures Inv(Settle(s, w))
  {
    hide FileInv, TaskOk, DeliveredCount, FullyMarked, AtLineEnd, Holds, InQueue, InProgress;
    SettleKeepsCovered(s, w);
  }

  lemma MarkKeepsCovered(s: State, w: WorkerId)
    requires Covered(s) && w in s.running
    ensures Covered(MarkInMemory(s, w))
  {
    var t := MarkInMemory(s, w);
    forall h, i: nat | h in t.files && i < DeliveredCount(t.files[h])
      ensures Holds(t, h, i)
    {
      assert Holds(s, h, i);
      if InProgress(s, Rec(h, i)) {
        var v :| v in s.running && s.running[v].task.rec == Rec(h, i);
        assert t.running[v].task == s.running[v].task;
      }
    }
  }

  lemma MarkKeeps(s: State, w: WorkerId)
    requires Inv(s) && InPhase(s, w, Settled)
    ensures Inv(MarkInMemory(s, w))
  {
    hide FileInv, IsLine, Payload, FullyMarked, AtLineEnd, Holds, InQueue, InProgress, TasksOk, DeliveredCount;
    var r := s.running[w].task.rec;
    MarkKeepsTasks(s, w);
    if r.file in s.files {
      assert r.index < DeliveredCount(s.files[r.file]) by { TaskDelivered(s, w); }
      MarkInv(s.files[r.file], r.index);
    }
    MarkKeepsCovered(s, w);
  }

  lemma TaskDelivered(s: State, w: WorkerId)
    requires TasksOk(s) && w in s.running && s.running[w].task.rec.file in s.files
    ensures var r := s.running[w].task.rec;
      r.index < DeliveredCount(s.files[r.file])
  {
  }

  lemma MarkKeepsTasks(s: State, w: WorkerId)
    requires TasksOk(s) && OneHolder(s) && InPhase(s, w, Settled)
    ensures TasksOk(MarkInMemory(s, w))
  {
    hide IsLine, Payload;
  }

  lemma SaveMarkKeeps(s: State, w: WorkerId)
    requires Inv(s) && InPhase(s, w, Marked)
    ensures Inv(MarkOnPage(s, w))
  {
    var r := s.running[w].task.rec;
    DropMarkedKeeps(s, w);
    if r.file in s.files {
      assert FileInv(s.files[r.file]) && TaskOk(s.files[r.file], s.running[w].task, true);
      hide Inv, FileInv, IsLine, Payload;
      var g := s.files[r.file];
      SaveMarkInv(g, r.index);
      SetFileKeeps(s.(running := s.running - {w}), r.file, g.(savedMarks := g.savedMarks + {r.index}));
    }
  }

  lemma DropMarkedKeeps(s: State, w: WorkerId)
    requires Inv(s) && InPhase(s, w, Marked)
    ensures Inv(s.(running := s.running - {w}))
  {
    hide FileInv, IsLine, Payload, FullyMarked, AtLineEnd;
    var t := s.(running := s.running - {w});
    forall h, i: nat | h in t.files && i < DeliveredCount(t.files[h])
      ensures Holds(t, h, i)
    {
      assert Holds(s, h, i);
      if InProgress(s, Rec(h, i)) {
        var v :| v in s.running && s.running[v].task.rec == Rec(h, i);
        if v != w { assert t.running[v] == s.running[v]; }
      }
    }
  }

  lemma ReleaseKeeps(s: State, f: FileId)
    requires Inv(s) && Enabled(s, Release(f))
    ensures Inv(Apply(s, Release(f)))
  {
    hide FileInv, TaskOk, DeliveredCount, FullyMarked, AtLineEnd, Torn, Releasable;
    ReleaseExact(s.files[f]);
    var t := DoRelease(s, f);
    forall h, i: nat | h in t.files && i < DeliveredCount(t.files[h])
      ensures Holds(t, h, i)
    {
      assert Holds(s, h, i);
    }
  }

  lemma RestartKeeps(s: State)
    requires Inv(s)
    ensures Inv(DoRestart(s))
  {
    hide FileInv, FullyMarked, AtLineEnd, Reopen, DeliveredCount, IsLine, Payload;
    var t := DoRestart(s);
    forall f | f in t.files
      ensures FileInv(t.files[f]) && DeliveredCount(t.files[f]) == 0 && t.files[f].marks <= s.files[f].marks
    {
      ReopenInv(s.files[f]);
      ReopenFacts(s.files[f]);
    }
    assert MarksSettled(t);
  }

  lemma ReopenFacts(f: LogFile)
    requires FileInv(f)
    ensures DeliveredCount(Reopen(f)) == 0 && Reopen(f).marks <= f.marks
  {
  }

  lemma StepKeeps(s: State, step: Step)
    requires Inv(s) && Enabled(s, step)
    ensures Inv(Apply(s, step))
  {
    hide Inv;
    match step
    case Create(f) => CreateKeeps(s, f);
    case Append(f, bytes) => AppendKeeps(s, f, bytes);
    case Deliver(f) => DeliverKeeps(s, f);
    case WritePos(f) => WriteKeeps(s, f);
    case WriteCount(f) => WriteKeeps(s, f);
    case Pop(w) => PopKeeps(s, w);
    case Answer(w, code) => if Accepted(code) { SettleKeeps(s, w); } else { RequeueKeeps(s, w); }
    case Unsent(w) => RequeueKeeps(s, w);
    case Expired(w) => SettleKeeps(s, w);
    case Mark(w) => MarkKeeps(s, w);
    case SaveMark(w) => SaveMarkKeeps(s, w);
    case Release(f) => ReleaseKeeps(s, f);
    case Restart => RestartKeeps(s);
  }

  lemma WriteKeeps(s: State, f: FileId)
    requires Inv(s) && f in s.files
    ensures CanStorePos(s.files[f]) ==> Inv(SetFile(s, f, StorePos(s.files[f])))
    ensures s.files[f].stage.PosStored? ==> Inv(SetFile(s, f, StoreCount(s.files[f])))
  {
    if CanStorePos(s.files[f]) {
      StorePosInv(s.files[f]);
      SetFileKeeps(s, f, StorePos(s.files[f]));
    }
    if s.files[f].stage.PosStored? {
      StoreCountInv(s.files[f]);
      SetFileKeeps(s, f, StoreCount(s.files[f]));
    }
  }

  /** Every state of every run, with any interleaving and any number of restarts. */
  lemma {:induction false} RunKeeps(steps: seq<Step>)
    requires Exec(steps).Some?
    ensures Inv(Exec(steps).value)
    decreases |steps|
  {
    hide Inv, Apply;
    if steps == [] {
      InitInv();
    } else {
      RunKeeps(steps[..|steps| - 1]);
      StepKeeps(Exec(steps[..|steps| - 1]).value, steps[|steps| - 1]);
    }
  }

  lemma InitInv()
    ensures Inv(INIT)
  {
  }
}
