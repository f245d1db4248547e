/** What the queue server guarantees over whole runs. */
module QueueTheorems {
  import opened Bytes
  import opened QueueRing
  import opened QueueKeys
  import opened SlotIndex
  import opened QueueModel
  import opened QueueRefinement
  import opened QueueRuns
  import opened QueuePurge
  import opened QueueSystem

  ghost predicate SystemOk(s: System) {
    Inv(s.engine) && forall i :: 0 <= i < |s.pending| ==> NameOk(s.pending[i].name)
  }

  /** The operation hands out an unacknowledged item again instead of a ready one. */
  predicate Redelivers(s: System, op: Op) {
    op.OpGet? && NameOk(op.name) && IsQueue(s.engine, op.name) && Overdue(s.engine, op.name)
  }

  /** A deletion does not hit a ready item. */
  ghost predicate Clean(s: System, op: Op) {
    op.OpDrop? && op.i < |s.pending| ==>
      op.fault || NotReady(s.engine, s.pending[op.i].name, s.pending[op.i].token)
  }

  /** The simple queues after an operation. */
  function SpecNext(s: System, q: Queues, op: Op): Queues {
    if Redelivers(s, op) then q else SpecStep(q, op).0
  }

  /** The answer is that of the simple queues; redeliveries, acknowledgements and deletions do
      not concern them. */
  predicate Answers(s: System, q: Queues, op: Op) {
    !Redelivers(s, op) && !op.OpAck? && !op.OpDrop? ==>
      && Step(s, op).1.code == SpecStep(q, op).1.code
      && (Step(s, op).1.code.Ok? ==> Step(s, op).1.item == SpecStep(q, op).1.item)
  }

  lemma MaxRefines(e: Engine, name: Bytes, max: nat)
    requires Inv(e)
    ensures var (e1, code) := SetMax(e, name, max); var (q1, spec) := SpecSettings(Abs(e), name, None, Some(max));
      Inv(e1) && Abs(e1) == q1 && code == spec
  {
    hide NameOk, Inv, Mapped, FifoOf, ViewOf;
    MappedOf(e);
    FindOk(e, name);
    if IsQueue(e, name) {
      InvParts(e, name);
      SettingsRefine(e, name, SlotOf(e, name).(max := max));
    }
  }

  lemma LockRefines(e: Engine, name: Bytes, lock: bool)
    requires Inv(e)
    ensures var (e1, code) := SetLock(e, name, lock); var (q1, spec) := SpecSettings(Abs(e), name, Some(lock), None);
      Inv(e1) && Abs(e1) == q1 && code == spec
  {
    hide NameOk, Inv, Mapped, FifoOf, ViewOf;
    MappedOf(e);
    FindOk(e, name);
    if IsQueue(e, name) {
      InvParts(e, name);
      SettingsRefine(e, name, SlotOf(e, name).(lock := lock));
    }
  }

  lemma ClockRefines(e: Engine, now: nat)
    requires Inv(e)
    ensures Inv(e.(now := now)) && Abs(e.(now := now)) == Abs(e)
  {
    hide NameOk, IndexOk, SlotNames, Offsets, FifoOf, RingsOk, ItemKey, Tags;
    var e1 := e.(now := now);
    assert Mapped(e1);
    assert Abs(e1).queues == Abs(e).queues;
    forall n, q, t | IsReady(e1, n, q, t) ensures IsReady(e, n, q, t) {
    }
  }

  /** The locked part of an operation: everything but the pending deletions. */
  lemma LockedRefines(s: System, op: Op)
    requires SystemOk(s) && !op.OpDrop?
    ensures var s1 := Step(s, op).0;
      SystemOk(s1) && Abs(s1.engine) == SpecNext(s, Abs(s.engine), op) && Answers(s, Abs(s.engine), op)
  {
    hide Inv, Abs, Put, SpecPut, Get, SpecTake, Unrecord, Purge, SpecPurge, NameOk, Mapped, SpecSettings, SetMax, SetLock,
      Restart, NotReady;
    var e := s.engine;
    MappedOf(e);
    match op
    case OpPut(name, item, p, fault) => PutRefines(e, name, item, p, fault);
    case OpGet(name, worker, isAck, fault, _) => OffsetInRange(e, name); GetRefines(e, name, worker, isAck, fault);
    case OpAck(name, token) => UnrecordRefines(e, name, token);
    case OpPurge(name, p, stuck) => PurgeRefines(e, name, p, stuck);
    case OpMax(name, max) => MaxRefines(e, name, max);
    case OpLock(name, lock) => LockRefines(e, name, lock);
    case OpRestart => RestartRefines(e);
    case OpClock(now) => ClockRefines(e, now);
  }

  lemma OffsetInRange(e: Engine, name: Bytes)
    requires Mapped(e)
    ensures name in e.index ==> e.index[name].offset < |e.slots|
  {
  }

  /** One operation, seen on the ready items: it is the operation on sequences exactly when it
      is not the deletion of a ready item. */
  lemma StepExact(s: System, op: Op)
    requires SystemOk(s)
    ensures var s1 := Step(s, op).0;
      && Mapped(s1.engine)
      && (Abs(s1.engine) == SpecNext(s, Abs(s.engine), op) <==> Clean(s, op))
      && (Clean(s, op) ==> SystemOk(s1))
      && Answers(s, Abs(s.engine), op)
  {
    MappedOf(s.engine);
    StepKeepsMapped(s, op);
    if op.OpDrop? {
      hide Inv, Abs, Drop, NotReady, NameOk, Mapped;
      if op.i < |s.pending| {
        DropExact(s.engine, s.pending[op.i].name, s.pending[op.i].token, op.fault);
      }
    } else {
      hide Inv, Abs, NotReady, NameOk, Mapped, Step, Answers, SpecNext;
      LockedRefines(s, op);
      MappedOf(Step(s, op).0.engine);
    }
  }

  // ---------------------------------------------------------------- runs

  /** State by state and answer by answer the run is one of first-in-first-out sequences. */
  ghost predicate Follows(s: System, q: Queues, ops: seq<Op>)
    decreases |ops|
  {
    && Mapped(s.engine) && Abs(s.engine) == q
    && (ops == [] || (Answers(s, q, ops[0]) && Follows(Step(s, ops[0]).0, SpecNext(s, q, ops[0]), ops[1..])))
  }

  ghost predicate CleanRun(s: System, ops: seq<Op>)
    decreases |ops|
  {
    ops == [] || (Clean(s, ops[0]) && CleanRun(Step(s, ops[0]).0, ops[1..]))
  }

  /** A run of puts, gets, acknowledgements, deletions, purges, settings and restarts in any
      order is a run of first-in-first-out sequences, in every state and every answer, exactly
      when no deletion hits a ready item. */
  lemma {:induction false} RunRefines(s: System, ops: seq<Op>)
    requires SystemOk(s)
    ensures Mapped(s.engine)
    ensures Follows(s, Abs(s.engine), ops) <==> CleanRun(s, ops)
    decreases |ops|
  {
    hide Inv, Abs, Step, SpecNext, Clean, Answers, Mapped;
    MappedOf(s.engine);
    if ops != [] {
      StepExact(s, ops[0]);
      if Clean(s, ops[0]) {
        RunRefines(Step(s, ops[0]).0, ops[1..]);
      }
    }
  }

  // ---------------------------------------------------------------- acknowledged gets only

  /** No item waits for an acknowledgement. */
  ghost predicate Quiet(e: Engine) {
    forall n :: n in e.index ==> e.index[n].unacked == map[] && e.index[n].redelivery == []
  }

  lemma QuietOpen(e: Engine, name: Bytes)
    requires Quiet(e)
    ensures Quiet(FindOrCreate(e, name).0)
  {
  }

  /** Without unacknowledged items a get works on the ready ones and records nothing. */
  lemma QuietGet(e: Engine, name: Bytes, worker: Bytes, fault: bool)
    requires Quiet(e)
    ensures Get(e, name, worker, true, fault).0.index == e.index
  {
    hide NameOk, Token, Key, Pick, Next;
  }

  lemma QuietStep(s: System, op: Op)
    requires SystemOk(s) && Quiet(s.engine) && (op.OpGet? ==> op.isAck)
    ensures Quiet(Step(s, op).0.engine) && !Redelivers(s, op)
  {
    hide Inv, NameOk, FindOrCreate, Get, Real, RealItem, PurgeKeys, Rebuild, SlotNames, Token, Key, EraseDue, Full;
    match op
    case OpPut(name, _, _, _) => QuietOpen(s.engine, name);
    case OpGet(name, worker, _, fault, _) => QuietGet(s.engine, name, worker, fault);
    case _ =>
  }

  predicate SameOut(a: Out, b: Out) {
    a.code == b.code && (a.code.Ok? ==> a.item == b.item)
  }

  /** When every get is acknowledged by the server and no deletion hits a ready item, every run
      gives exactly the results of first-in-first-out queues: a put appends to its priority, a
      get returns the head of the highest non-empty priority. */
  lemma {:induction false} AcknowledgedRunIsFifo(s: System, ops: seq<Op>)
    requires SystemOk(s) && Quiet(s.engine) && CleanRun(s, ops)
    requires forall i :: 0 <= i < |ops| ==> !ops[i].OpAck? && (ops[i].OpGet? ==> ops[i].isAck)
    ensures Mapped(s.engine) && Mapped(Run(s, ops).0.engine)
    ensures Abs(Run(s, ops).0.engine) == SpecRun(Abs(s.engine), ops).0
    ensures |Run(s, ops).1| == |SpecRun(Abs(s.engine), ops).1| == |ops|
    ensures forall i :: 0 <= i < |ops| && !ops[i].OpDrop? ==>
              SameOut(Run(s, ops).1[i], SpecRun(Abs(s.engine), ops).1[i])
    decreases |ops|
  {
    hide Inv, Abs, Step, SpecStep, Clean, Redelivers, Quiet, Mapped;
    MappedOf(s.engine);
    if ops != [] {
      QuietStep(s, ops[0]);
      StepExact(s, ops[0]);
      AcknowledgedRunIsFifo(Step(s, ops[0]).0, ops[1..]);
    }
  }

  /** A fresh server with n free slots. */
  function Fresh(n: nat, timeout: nat): System {
    System(Engine(seq(n, _ => FREE_SLOT), map[], map[], 0, false, timeout), [])
  }

  lemma FreshInv(n: nat, timeout: nat)
    ensures SystemOk(Fresh(n, timeout)) && Quiet(Fresh(n, timeout).engine)
    ensures Abs(Fresh(n, timeout).engine) == Queues(map[], {}, n, false)
  {
  }
}
