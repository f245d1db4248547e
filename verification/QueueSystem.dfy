/** The queue server as a whole: the engine and the deletions that are still to come. A get
    that acknowledges at once and an ack both release the lock of the queue before they delete
    the item, so any operation may come in between. */
module QueueSystem {
  import opened Bytes
  import opened QueueRing
  import opened QueueKeys
  import opened SlotIndex
  import opened QueueModel
  import opened QueueRefinement
  import opened QueueRuns
  import opened QueuePurge

  /** An item to be deleted. */
  datatype Promise = Promise(name: Bytes, token: Bytes)

  datatype System = System(engine: Engine, pending: seq<Promise>)

  /** `isAck` is a get whose handler deletes the item once it was sent (`replied`). OpDrop is
      one of the pending deletions. */
  datatype Op =
    | OpPut(name: Bytes, item: Bytes, p: nat, fault: bool)
    | OpGet(name: Bytes, worker: Bytes, isAck: bool, fault: bool, replied: bool)
    | OpAck(name: Bytes, token: Bytes)
    | OpDrop(i: nat, fault: bool)
    | OpPurge(name: Bytes, p: nat, stuck: set<Bytes>)
    | OpMax(name: Bytes, max: nat)
    | OpLock(name: Bytes, lock: bool)
    | OpRestart
    | OpClock(now: nat)

  /** What a caller sees of an operation: the code and the item. */
  datatype Out = Out(code: Code, item: Bytes)

  function Done(s: System, r: (Engine, Code)): (System, Out) {
    (s.(engine := r.0), Out(r.1, []))
  }

  function Without(pending: seq<Promise>, i: nat): seq<Promise>
    requires i < |pending|
  {
    pending[..i] + pending[i + 1..]
  }

  function GetStep(s: System, name: Bytes, worker: Bytes, isAck: bool, fault: bool, replied: bool): (System, Out) {
    var (e1, d) := Get(s.engine, name, worker, isAck, fault);
    var more := if isAck && replied && d.code.Ok? then [Promise(name, d.token)] else [];
    (System(e1, s.pending + more), Out(d.code, d.item))
  }

  function AckStep(s: System, name: Bytes, token: Bytes): (System, Out) {
    var (e1, code) := Unrecord(s.engine, name, token);
    (System(e1, s.pending + if code.Ok? then [Promise(name, token)] else []), Out(code, []))
  }

  function DropStep(s: System, i: nat, fault: bool): (System, Out) {
    if i >= |s.pending| then (s, Out(Missing, []))
    else
      var (e1, code) := Drop(s.engine, s.pending[i].name, s.pending[i].token, fault);
      (System(e1, Without(s.pending, i)), Out(code, []))
  }

  /** A restart forgets the pending deletions; their keys stay in the storage. */
  function Step(s: System, op: Op): (System, Out) {
    match op
    case OpPut(name, item, p, fault) => Done(s, Put(s.engine, name, item, p, fault))
    case OpGet(name, worker, isAck, fault, replied) => GetStep(s, name, worker, isAck, fault, replied)
    case OpAck(name, token) => AckStep(s, name, token)
    case OpDrop(i, fault) => DropStep(s, i, fault)
    case OpPurge(name, p, stuck) => Done(s, Purge(s.engine, name, p, stuck))
    case OpMax(name, max) => Done(s, SetMax(s.engine, name, max))
    case OpLock(name, lock) => Done(s, SetLock(s.engine, name, lock))
    case OpRestart => (System(Restart(s.engine), []), Out(Ok, []))
    case OpClock(now) => (s.(engine := s.engine.(now := now)), Out(Ok, []))
  }

  function Run(s: System, ops: seq<Op>): (System, seq<Out>)
    decreases |ops|
  {
    if ops == [] then (s, [])
    else
      var (s1, out) := Step(s, ops[0]);
      var (s2, outs) := Run(s1, ops[1..]);
      (s2, [out] + outs)
  }

  // ---------------------------------------------------------------- the simple form

  function SpecSettings(q: Queues, name: Bytes, lock: Option<bool>, max: Option<nat>): (Queues, Code) {
    if !NameOk(name) || (max.Some? && max.value > 5_000_000) then (q, Rejected)
    else if name !in q.queues then (q, NoQueue)
    else
      var f := q.queues[name];
      (q.(queues := q.queues[name := f.(lock := if lock.Some? then lock.value else f.lock,
                                        max := if max.Some? then max.value else f.max)]), Ok)
  }

  /** The same operation on first-in-first-out sequences. An acknowledgement, a deletion, a
      restart and the clock do not concern ready items. */
  function SpecStep(q: Queues, op: Op): (Queues, Out) {
    match op
    case OpPut(name, item, p, fault) =>
      var (q1, code) := SpecPut(q, name, item, p, fault); (q1, Out(code, []))
    case OpGet(name, worker, _, fault, _) =>
      var (q1, code, item) := SpecTake(q, name, worker, fault); (q1, Out(code, item))
    case OpPurge(name, p, _) =>
      var (q1, code) := SpecPurge(q, name, p); (q1, Out(code, []))
    case OpMax(name, max) =>
      var (q1, code) := SpecSettings(q, name, None, Some(max)); (q1, Out(code, []))
    case OpLock(name, lock) =>
      var (q1, code) := SpecSettings(q, name, Some(lock), None); (q1, Out(code, []))
    case _ => (q, Out(Ok, []))
  }

  function SpecRun(q: Queues, ops: seq<Op>): (Queues, seq<Out>)
    decreases |ops|
  {
    if ops == [] then (q, [])
    else
      var (q1, out) := SpecStep(q, ops[0]);
      var (q2, outs) := SpecRun(q1, ops[1..]);
      (q2, [out] + outs)
  }

  // ---------------------------------------------------------------- map and counts

  lemma PushKeepsMapped(e: Engine, name: Bytes, item: Bytes, p: nat)
    requires Mapped(e) && IsQueue(e, name) && p < 3 && !Full(SlotOf(e, name))
    ensures Mapped(Push(e, e.index[name].offset, name, item, p))
  {
    hide NameOk, ItemKey, Tags, Next, IndexOk, SlotNames, Offsets, Items;
    var s := SlotOf(e, name);
    var r := s.rings[p];
    RealIsCount(e.store, s);
    PushTag(r);
    SetRingKeepsMapped(e, name, p, r.(ep := Next(r.ep)));
    MappedIgnoresStore(SetRing(e, e.index[name].offset, p, r.(ep := Next(r.ep))), e.store[ItemKey(name, p, Next(r.ep)) := item]);
  }

  lemma PutKeepsMapped(e: Engine, name: Bytes, item: Bytes, p: nat, fault: bool)
    requires Mapped(e)
    ensures Mapped(Put(e, name, item, p, fault).0)
  {
    hide NameOk, Mapped, FindOrCreate, Push, Full;
    if NameOk(name) {
      OpenKeepsMapped(e, name);
      var (e1, at) := FindOrCreate(e, name);
      if at.Some? && !Full(e1.slots[at.value]) && p <= 2 {
        PushKeepsMapped(e1, name, item, p);
      }
    }
  }

  lemma ChooseKeepsMapped(e: Engine, name: Bytes)
    requires Mapped(e) && IsQueue(e, name)
    ensures var e1 := Choose(e, e.index[name].offset, name).0;
      Mapped(e1) && IsQueue(e1, name)
  {
    hide NameOk, Tags, Next, IndexOk, SlotNames, Offsets, Token, Items;
    var s := SlotOf(e, name);
    RealIsCount(e.store, s);
    if Overdue(e, name) {
      InfoKeepsMapped(e, name, e.index[name].(redelivery := e.index[name].redelivery[1..]));
    } else if Pick(s).Some? {
      var p := Pick(s).value;
      var r := s.rings[p];
      PopTag(r);
      SetRingKeepsMapped(e, name, p, r.(sp := Next(r.sp)));
    }
  }

  lemma GetKeepsMapped(e: Engine, name: Bytes, worker: Bytes, isAck: bool, fault: bool)
    requires Mapped(e)
    ensures Mapped(Get(e, name, worker, isAck, fault).0)
  {
    hide NameOk, Mapped, Choose, Remember, Key;
    FindOk(e, name);
    if IsQueue(e, name) {
      ChooseKeepsMapped(e, name);
      var (e1, token) := Choose(e, e.index[name].offset, name);
      if token.Some? {
        RememberKeepsOffset(e1.index[name], token.value, e1.now);
        InfoKeepsMapped(e1, name, Remember(e1.index[name], token.value, e1.now));
      }
    }
  }

  lemma UnrecordKeepsMapped(e: Engine, name: Bytes, token: Bytes)
    requires Mapped(e)
    ensures Mapped(Unrecord(e, name, token).0)
  {
    hide NameOk, Mapped, EraseDue;
    if IsQueue(e, name) && token in e.index[name].unacked {
      InfoKeepsMapped(e, name, Forget(e.index[name], token));
    }
  }

  lemma ClearedRings(s: Slot, p: nat)
    requires RingsOk(s) && p < 3
    ensures RingsOk(s.(rings := s.rings[p := EMPTY_RING]))
  {
  }

  lemma PurgeKeepsMapped(e: Engine, name: Bytes, p: nat, stuck: set<Bytes>)
    requires Mapped(e)
    ensures Mapped(Purge(e, name, p, stuck).0)
  {
    hide NameOk, PurgeKeys, IndexOk, SlotNames, Offsets, Real, RealItem, RingsOk;
    FindOk(e, name);
    if p <= 2 && IsQueue(e, name) {
      var at := e.index[name].offset;
      var keys := PurgeKeys(name, p, e.slots[at].rings[p]) - stuck;
      FreeKeepsMapped(e, name);
      MappedIgnoresStore(e.(index := e.index - {name}, slots := e.slots[at := FREE_SLOT]), e.store - keys);
      ClearedRings(SlotOf(e, name), p);
      SetRingKeepsMapped(e, name, p, EMPTY_RING);
      MappedIgnoresStore(SetRing(e, at, p, EMPTY_RING), e.store - keys);
    }
  }

  lemma SettingsKeepMapped(e: Engine, name: Bytes, max: nat, lock: bool)
    requires Mapped(e)
    ensures Mapped(SetMax(e, name, max).0) && Mapped(SetLock(e, name, lock).0)
  {
    hide NameOk, IndexOk, SlotNames, Offsets, RingsOk;
    if IsQueue(e, name) {
      SettingsKeepSlots(e, name, SlotOf(e, name).(max := max));
      SettingsKeepSlots(e, name, SlotOf(e, name).(lock := lock));
    }
  }

  lemma RestartKeepsMapped(e: Engine)
    requires Mapped(e)
    ensures Mapped(Restart(e)) && Offsets(Restart(e).index) == Offsets(e.index)
  {
    hide Restart, IndexOk, SlotNames, Offsets, NameOk, RingsOk;
    RestartKeepsMap(e);
    RestartKeepsRest(e);
  }

  lemma ClockKeepsMapped(e: Engine, now: nat)
    requires Mapped(e)
    ensures Mapped(e.(now := now))
  {
  }

  /** Every operation in every order keeps names and slots in one-to-one correspondence and the
      rings of each queue within the item limit. */
  lemma StepKeepsMapped(s: System, op: Op)
    requires Mapped(s.engine)
    ensures Mapped(Step(s, op).0.engine)
  {
    hide Mapped, Put, Get, Unrecord, Purge, SetMax, SetLock, Restart;
    var e := s.engine;
    match op
    case OpPut(name, item, p, fault) => PutKeepsMapped(e, name, item, p, fault);
    case OpGet(name, worker, isAck, fault, _) => GetKeepsMapped(e, name, worker, isAck, fault);
    case OpAck(name, token) => UnrecordKeepsMapped(e, name, token);
    case OpDrop(i, _) => if i < |s.pending| { MappedIgnoresStore(e, e.store - {Key(s.pending[i].name, s.pending[i].token)}); }
    case OpPurge(name, p, stuck) => PurgeKeepsMapped(e, name, p, stuck);
    case OpMax(name, max) => SettingsKeepMapped(e, name, max, false);
    case OpLock(name, lock) => SettingsKeepMapped(e, name, 0, lock);
    case OpRestart => RestartKeepsMapped(e);
    case OpClock(now) => ClockKeepsMapped(e, now);
  }

  lemma {:induction false} RunKeepsMapped(s: System, ops: seq<Op>)
    requires Mapped(s.engine)
    ensures Mapped(Run(s, ops).0.engine)
    decreases |ops|
  {
    hide Mapped, Step;
    if ops != [] {
      StepKeepsMapped(s, ops[0]);
      RunKeepsMapped(Step(s, ops[0]).0, ops[1..]);
    }
  }

  /** After every run the server's item counts are the true ring distances, they add up to at
      most the item limit, and so the wrap test on the start tag never misfires. */
  lemma CountsAreExact(s: System, ops: seq<Op>, name: Bytes, p: nat)
    requires Mapped(s.engine) && IsQueue(Run(s, ops).0.engine, name) && p < 3
    ensures var e := Run(s, ops).0.engine;
      var r := SlotOf(e, name).rings[p];
      && InRange(r) && RealItem(r.sp, r.ep) == (r.ep - r.sp) % 11_000_000
      && Real(SlotOf(e, name)) <= 5_000_000
  {
    hide Run, FifoOf, IndexOk, SlotNames, Offsets, NameOk;
    RunKeepsMapped(s, ops);
    var e := Run(s, ops).0.engine;
    var slot := SlotOf(e, name);
    SizeIsModular(slot.rings[p]);
    RealIsCount(e.store, slot);
  }

  /** Two slots in use with one name. */
  predicate SameName(slots: seq<Slot>, i: nat, j: nat) {
    i < |slots| && j < |slots| && slots[i].flag && slots[j].flag && slots[i].name == slots[j].name
  }

  /** After every run, slots in use have distinct names and a restart finds the same map. */
  lemma RestartAfterRun(s: System, ops: seq<Op>)
    requires Mapped(s.engine)
    ensures var e := Run(s, ops).0.engine;
      && Offsets(Restart(e).index) == Offsets(e.index)
      && (forall i, j :: SameName(e.slots, i, j) ==> i == j)
  {
    hide Run, Restart, SlotOk;
    RunKeepsMapped(s, ops);
    var e := Run(s, ops).0.engine;
    RestartKeepsMapped(e);
    forall i, j | SameName(e.slots, i, j) ensures i == j {
      NamesDistinct(SlotNames(e.slots), 0, Offsets(e.index), i, j);
    }
  }
}
