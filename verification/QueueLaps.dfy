/** Which runs meet the condition of QueueSeparation: those that delete each item before the
    next operation, and those that delete it before the tags have gone once around the ring. */
module QueueLaps {
  import opened Bytes
  import opened QueueRing
  import opened QueueKeys
  import opened SlotIndex
  import opened QueueModel
  import opened QueueRefinement
  import opened QueueRuns
  import opened QueuePurge
  import opened QueueSystem
  import opened QueueTheorems
  import opened QueueSeparation

  // ---------------------------------------------------------------- deletion at once

  /** Nobody acknowledges, and the handler of every get goes on to its deletion before the next
      operation starts. */
  predicate Serial(ops: seq<Op>)
    decreases |ops|
  {
    ops == [] || (
      && !ops[0].OpAck?
      && (ops[0].OpGet? ==> ops[0].isAck && |ops| > 1 && ops[1].OpDrop? && ops[1].i == 0)
      && Serial(ops[1..]))
  }

  lemma {:induction false} SerialGets(ops: seq<Op>, i: nat)
    requires Serial(ops) && i < |ops|
    ensures !ops[i].OpAck? && (ops[i].OpGet? ==> ops[i].isAck)
  {
    if i > 0 { SerialGets(ops[1..], i - 1); }
  }

  /** Nothing is outstanding and no deletion is to come. */
  ghost predicate Settled(s: System) {
    SystemOk(s) && Quiet(s.engine) && s.pending == []
  }

  lemma SettledSeparates(s: System)
    requires Settled(s)
    ensures Separate(s)
    ensures forall op :: FreshPut(s, op)
  {
    hide NameOk, Mapped, Stored, Token, Next;
  }

  /** A get followed by its deletion, or another operation. */
  lemma SerialStep(s: System, op: Op)
    requires Settled(s) && !op.OpAck? && (op.OpGet? ==> op.isAck)
    ensures var s1 := Step(s, op).0;
      && SystemOk(s1) && Separate(s1) && Quiet(s1.engine)
      && (!op.OpGet? ==> s1.pending == []) && |s1.pending| <= 1
  {
    hide SystemOk, Quiet, Separate, FreshPut, Clean, Put, Get, Drop, Purge, SetMax, SetLock, Restart;
    SettledSeparates(s);
    StepSeparates(s, op);
    StepKeepsOk(s, op);
    QuietStep(s, op);
  }

  lemma SerialDrop(s: System, op: Op)
    requires SystemOk(s) && Separate(s) && Quiet(s.engine) && |s.pending| <= 1 && op.OpDrop? && op.i == 0
    ensures FreshPut(s, op) && Settled(Step(s, op).0)
  {
    hide SystemOk, Quiet, Separate, Clean, Drop;
    StepSeparates(s, op);
    StepKeepsOk(s, op);
    QuietStep(s, op);
  }

  lemma {:induction false} SerialRunIsFresh(s: System, ops: seq<Op>)
    requires Settled(s) && Serial(ops)
    ensures FreshRun(s, ops)
    decreases |ops|
  {
    hide Settled, Step, FreshPut, SystemOk, Separate, Quiet;
    if ops != [] {
      SettledSeparates(s);
      SerialStep(s, ops[0]);
      var s1 := Step(s, ops[0]).0;
      if ops[0].OpGet? {
        SerialDrop(s1, ops[1]);
        assert ops[1..][1..] == ops[2..] && Serial(ops[1..]);
        SerialRunIsFresh(Step(s1, ops[1]).0, ops[2..]);
      } else {
        assert Settled(s1) by { SettledIs(s1); }
        SerialRunIsFresh(s1, ops[1..]);
      }
    }
  }

  lemma SettledIs(s: System)
    requires SystemOk(s) && Quiet(s.engine) && s.pending == []
    ensures Settled(s)
  {
  }

  /** First in, first out, for every run in which gets are acknowledged by the server and
      deletions follow their gets: no condition on tags, puts or purges. */
  lemma SerialRunIsFifo(s: System, ops: seq<Op>)
    requires Settled(s) && Serial(ops)
    ensures Mapped(s.engine) && Mapped(Run(s, ops).0.engine)
    ensures Abs(Run(s, ops).0.engine) == SpecRun(Abs(s.engine), ops).0
    ensures |Run(s, ops).1| == |SpecRun(Abs(s.engine), ops).1| == |ops|
    ensures forall i :: 0 <= i < |ops| && !ops[i].OpDrop? ==>
              SameOut(Run(s, ops).1[i], SpecRun(Abs(s.engine), ops).1[i])
  {
    hide SystemOk, Separate, Quiet, CleanRun, FreshRun, Run, SpecRun, Mapped, Abs;
    SettledSeparates(s);
    SerialRunIsFresh(s, ops);
    forall i | 0 <= i < |ops| ensures !ops[i].OpAck? && (ops[i].OpGet? ==> ops[i].isAck) {
      SerialGets(ops, i);
    }
    FreshRunIsFifo(s, ops);
  }

  // ---------------------------------------------------------------- deletion within a lap

  /** The puts to one priority that the tags bear between a delivery and its deletion. */
  const LAP: nat := 6_000_000

  /** The token was handed out and its item is not yet deleted. */
  predicate InUse(s: System, h: Promise) {
    (h.name in s.engine.index && Outstanding(s.engine.index[h.name], h.token)) || h in s.pending
  }

  /** How far the end of the ring is ahead of a tag. */
  function Lead(r: Ring, t: nat): nat
    requires InRange(r) && t < CYCLE
  {
    Size(Ring(t, r.ep))
  }

  /** For each token in use, the puts to its queue and priority since it was handed out. */
  type Ages = Promise -> nat

  ghost predicate OfPriority(token: Bytes, p: nat) {
    exists t: nat :: token == Token(p, t)
  }

  ghost predicate PutTo(s: System, op: Op, h: Promise) {
    op.OpPut? && op.name == h.name && OfPriority(h.token, op.p) && Step(s, op).1.code.Ok?
  }

  ghost function Aged(s: System, ages: Ages, op: Op): Ages {
    h => if !InUse(s, h) then 0 else if PutTo(s, op, h) then ages(h) + 1 else ages(h)
  }

  /** No put finds a token of its queue and priority that has been in use for a lap of puts, and
      a queue is purged only while none of its tokens is in use. */
  ghost predicate Prompt(s: System, ages: Ages, op: Op) {
    && (op.OpPut? ==> forall h :: InUse(s, h) && h.name == op.name && OfPriority(h.token, op.p) ==> ages(h) < LAP)
    && (op.OpPurge? ==> forall h :: InUse(s, h) ==> h.name != op.name)
  }

  ghost predicate PromptRun(s: System, ages: Ages, ops: seq<Op>)
    decreases |ops|
  {
    ops == [] || (Prompt(s, ages, ops[0]) && PromptRun(Step(s, ops[0]).0, Aged(s, ages, ops[0]), ops[1..]))
  }

  /** The token is the tag t of priority p, and the end of its ring is not further ahead than a
      full queue and the puts since. */
  ghost predicate TagBehind(e: Engine, h: Promise, p: nat, t: nat, age: nat) {
    && IsQueue(e, h.name) && p < 3 && t < CYCLE && h.token == Token(p, t)
    && InRange(SlotOf(e, h.name).rings[p]) && Lead(SlotOf(e, h.name).rings[p], t) < MAX_ITEMS + age
  }

  ghost predicate Behind(e: Engine, h: Promise, age: nat) {
    exists p, t :: TagBehind(e, h, p, t, age)
  }

  ghost predicate AgesOk(s: System, ages: Ages) {
    forall h :: InUse(s, h) ==> Behind(s.engine, h, ages(h))
  }

  /** The put after a lap would be the first to meet the tag again. */
  lemma LapIsFresh(s: System, ages: Ages, op: Op)
    requires AgesOk(s, ages) && Prompt(s, ages, op)
    ensures FreshPut(s, op)
  {
    hide Token, Outstanding;
    if op.OpPut? && op.p < 3 {
      var tag := NextTag(s.engine, op.name, op.p);
      var h := Promise(op.name, Token(op.p, tag));
      if InUse(s, h) {
        var p: nat, t: nat :| TagBehind(s.engine, h, p, t, ages(h));
        assert OfPriority(h.token, op.p);
        TokenInjective(p, t, op.p, tag);
      }
    }
  }

  /** The ends of all rings stay. */
  ghost predicate SameEnds(e: Engine, e1: Engine, n: Bytes) {
    IsQueue(e, n) ==> IsQueue(e1, n) && forall q :: 0 <= q < 3 && InRange(SlotOf(e, n).rings[q]) ==>
      InRange(SlotOf(e1, n).rings[q]) && SlotOf(e1, n).rings[q].ep == SlotOf(e, n).rings[q].ep
  }

  lemma BehindStays(e: Engine, e1: Engine, h: Promise, age: nat, more: nat)
    requires Behind(e, h, age) && SameEnds(e, e1, h.name) && age <= more
    ensures Behind(e1, h, more)
  {
    hide Token;
    var p: nat, t: nat :| TagBehind(e, h, p, t, age);
    assert TagBehind(e1, h, p, t, more);
  }

  /** A step that hands out nothing new and moves no end. */
  lemma StillKeeps(s: System, ages: Ages, op: Op)
    requires AgesOk(s, ages)
    requires forall h :: InUse(Step(s, op).0, h) ==> InUse(s, h) && SameEnds(s.engine, Step(s, op).0.engine, h.name)
    ensures AgesOk(Step(s, op).0, Aged(s, ages, op))
  {
    hide InUse, Step, Behind, SameEnds;
    var s1 := Step(s, op).0;
    forall h | InUse(s1, h) ensures Behind(s1.engine, h, Aged(s, ages, op)(h)) {
      BehindStays(s.engine, s1.engine, h, ages(h), Aged(s, ages, op)(h));
    }
  }

  // ---------------------------------------------------------------- put

  /** A put hands out nothing. */
  lemma PutUses(s: System, op: Op, h: Promise)
    requires Mapped(s.engine) && op.OpPut? && InUse(Step(s, op).0, h)
    ensures InUse(s, h)
  {
    hide NameOk, FindOrCreate, IndexOk, SlotNames, Offsets, RingsOk, Full, ItemKey, Next, NewSlot;
    OpenIs(s.engine, op.name);
  }

  /** It moves one end, of its own queue and priority, if it succeeds. */
  lemma PutEnds(s: System, op: Op, n: Bytes, q: nat)
    requires Mapped(s.engine) && op.OpPut? && IsQueue(s.engine, n) && q < 3
    ensures var (s1, out) := Step(s, op);
      && IsQueue(s1.engine, n)
      && var r, r1 := SlotOf(s.engine, n).rings[q], SlotOf(s1.engine, n).rings[q];
         && InRange(r) && InRange(r1)
         && r1.ep == if n == op.name && q == op.p && out.code.Ok? then Next(r.ep) else r.ep
  {
    hide NameOk, Mapped, FindOrCreate, Full, Push, Next;
    var e := s.engine;
    RingsAre(e, n);
    if NameOk(op.name) && op.p <= 2 {
      OpenKeepsMapped(e, op.name);
      OpenKeepsRings(e, op.name, n);
      var e1 := FindOrCreate(e, op.name).0;
      if IsQueue(e1, op.name) {
        PushEnds(e1, op.name, op.item, op.p, n, q);
      }
    }
  }

  lemma PushEnds(e: Engine, name: Bytes, item: Bytes, p: nat, n: Bytes, q: nat)
    requires Mapped(e) && IsQueue(e, name) && IsQueue(e, n) && p < 3 && q < 3
    ensures var e1 := Push(e, e.index[name].offset, name, item, p);
      && IsQueue(e1, n)
      && var r, r1 := SlotOf(e, n).rings[q], SlotOf(e1, n).rings[q];
         InRange(r1) && r1.ep == if n == name && q == p then Next(r.ep) else r.ep
  {
    hide NameOk, Mapped, ItemKey;
    RingsAre(e, n);
    OwnSlot(e, name, n);
  }

  lemma OpenKeepsRings(e: Engine, name: Bytes, n: Bytes)
    requires Mapped(e) && NameOk(name) && IsQueue(e, n)
    ensures var e1 := FindOrCreate(e, name).0;
      IsQueue(e1, n) && SlotOf(e1, n) == SlotOf(e, n)
  {
    hide NameOk, FindOrCreate, IndexOk, SlotNames, Offsets, RingsOk, NewSlot;
    OpenIs(e, name);
    var i := FirstFree(SlotNames(e.slots), 0);
    if name !in e.index && i < |e.slots| {
      CreateKeepsMapped(e, name, i);
    }
  }

  /** Different queues have different slots. */
  lemma OwnSlot(e: Engine, name: Bytes, n: Bytes)
    requires Mapped(e) && IsQueue(e, name) && IsQueue(e, n)
    ensures e.index[name].offset == e.index[n].offset ==> name == n
  {
  }

  lemma LeadGrows(r: Ring, t: nat)
    requires InRange(r) && t < CYCLE && Lead(r, t) + 1 < CYCLE
    ensures var r1 := r.(ep := Next(r.ep));
      InRange(r1) && Lead(r1, t) == Lead(r, t) + 1
  {
  }

  lemma PutKeepsAges(s: System, ages: Ages, op: Op)
    requires Mapped(s.engine) && op.OpPut? && AgesOk(s, ages) && Prompt(s, ages, op)
    ensures AgesOk(Step(s, op).0, Aged(s, ages, op))
  {
    hide InUse, Step, Mapped, Token, Next;
    var s1, older := Step(s, op).0, Aged(s, ages, op);
    forall h | InUse(s1, h) ensures Behind(s1.engine, h, older(h)) {
      PutUses(s, op, h);
      var p: nat, t: nat :| TagBehind(s.engine, h, p, t, ages(h));
      PutEnds(s, op, h.name, p);
      if h.name == op.name && p == op.p && Step(s, op).1.code.Ok? {
        assert OfPriority(h.token, op.p);
        LeadGrows(SlotOf(s.engine, h.name).rings[p], t);
      }
      assert TagBehind(s1.engine, h, p, t, older(h));
    }
  }

  // ---------------------------------------------------------------- get

  /** The get takes the ready item of priority p that h stands for. */
  predicate Takes(s: System, op: Op, h: Promise, p: nat) {
    && op.OpGet? && IsQueue(s.engine, op.name) && !Overdue(s.engine, op.name)
    && Pick(SlotOf(s.engine, op.name)) == Some(p)
    && h == Promise(op.name, Token(p, Next(SlotOf(s.engine, op.name).rings[p].sp)))
  }

  lemma ChooseUses(e: Engine, name: Bytes, token: Bytes)
    requires IsQueue(e, name)
    ensures var (e1, chosen) := Choose(e, e.index[name].offset, name);
      && (Outstanding(e1.index[name], token) ==> Outstanding(e.index[name], token))
      && (forall n :: n in e1.index && n != name ==> e1.index[n] == e.index[n])
      && (Overdue(e, name) ==> chosen.Some? && Outstanding(e.index[name], chosen.value))
      && (!Overdue(e, name) && chosen.Some? ==>
            && Pick(SlotOf(e, name)).Some?
            && var p := Pick(SlotOf(e, name)).value; chosen.value == Token(p, Next(SlotOf(e, name).rings[p].sp)))
  {
    hide Token, Next, Pick;
    if Overdue(e, name) {
      var info := e.index[name];
      FewerOutstanding(info, info.(redelivery := info.redelivery[1..]), token);
    }
  }

  lemma GetUses(s: System, op: Op, h: Promise)
    requires op.OpGet? && InUse(Step(s, op).0, h)
    ensures InUse(s, h) || exists p :: Takes(s, op, h, p)
  {
    hide NameOk, Outstanding, Choose, Remember, Token, Key, Pick, Next;
    var e := s.engine;
    FindOk(e, op.name);
    if NameOk(op.name) && IsQueue(e, op.name) {
      ChooseUses(e, op.name, h.token);
      var (e1, token) := Choose(e, e.index[op.name].offset, op.name);
      if token.Some? {
        RememberOutstanding(e1.index[op.name], token.value, e1.now, h.token);
        if !Overdue(e, op.name) {
          assert Takes(s, op, Promise(op.name, token.value), Pick(SlotOf(e, op.name)).value);
        }
      }
    }
  }

  /** A get moves starts, not ends. */
  lemma ChooseEnds(e: Engine, name: Bytes, n: Bytes)
    requires Mapped(e) && IsQueue(e, name) && IsQueue(e, n)
    ensures var e1 := Choose(e, e.index[name].offset, name).0;
      && IsQueue(e1, n)
      && forall q :: 0 <= q < 3 ==>
           InRange(SlotOf(e1, n).rings[q]) && SlotOf(e1, n).rings[q].ep == SlotOf(e, n).rings[q].ep
  {
    hide NameOk, Mapped, Token, Pick;
    RingsAre(e, n);
    OwnSlot(e, name, n);
  }

  lemma GetEnds(s: System, op: Op, n: Bytes)
    requires Mapped(s.engine) && op.OpGet? && IsQueue(s.engine, n)
    ensures var e1 := Step(s, op).0.engine;
      && IsQueue(e1, n)
      && forall q :: 0 <= q < 3 ==>
           InRange(SlotOf(e1, n).rings[q]) && SlotOf(e1, n).rings[q].ep == SlotOf(s.engine, n).rings[q].ep
  {
    hide NameOk, IndexOk, SlotNames, Offsets, Choose, Key, Remember;
    var e := s.engine;
    FindOk(e, op.name);
    if IsQueue(e, op.name) {
      ChooseEnds(e, op.name, n);
      ChooseEnds(e, op.name, op.name);
      var (e1, token) := Choose(e, e.index[op.name].offset, op.name);
      if token.Some? {
        RememberKeepsOffset(e1.index[op.name], token.value, e1.now);
      }
    }
  }

  /** The tag taken is the new start, so the end is ahead of it by the items left. */
  lemma TakenIsBehind(s: System, op: Op, h: Promise, p: nat)
    requires Mapped(s.engine) && Takes(s, op, h, p) && InUse(Step(s, op).0, h) && !InUse(s, h)
    ensures Behind(Step(s, op).0.engine, h, 0)
  {
    hide NameOk, IndexOk, SlotNames, Offsets, Token, Key, Outstanding, Choose, InUse;
    var e := s.engine;
    var slot := SlotOf(e, op.name);
    RealIsCount(e.store, slot);
    PopTag(slot.rings[p]);
    GetEnds(s, op, op.name);
    assert TagBehind(Step(s, op).0.engine, h, p, Next(slot.rings[p].sp), 0);
  }

  lemma GetKeepsAges(s: System, ages: Ages, op: Op)
    requires Mapped(s.engine) && op.OpGet? && AgesOk(s, ages)
    ensures AgesOk(Step(s, op).0, Aged(s, ages, op))
  {
    hide InUse, Step, Mapped, Takes, Behind;
    var s1, older := Step(s, op).0, Aged(s, ages, op);
    forall h | InUse(s1, h) ensures Behind(s1.engine, h, older(h)) {
      GetUses(s, op, h);
      if InUse(s, h) {
        UsedIsQueue(s, ages, h);
        GetEnds(s, op, h.name);
        assert SameEnds(s.engine, s1.engine, h.name);
        BehindStays(s.engine, s1.engine, h, ages(h), older(h));
      } else {
        var p :| Takes(s, op, h, p);
        TakenIsBehind(s, op, h, p);
      }
    }
  }

  lemma UsedIsQueue(s: System, ages: Ages, h: Promise)
    requires AgesOk(s, ages) && InUse(s, h)
    ensures IsQueue(s.engine, h.name)
  {
  }

  // ---------------------------------------------------------------- the other operations

  lemma AckKeepsAges(s: System, ages: Ages, op: Op)
    requires op.OpAck? && AgesOk(s, ages)
    ensures AgesOk(Step(s, op).0, Aged(s, ages, op))
  {
    hide NameOk, EraseDue, Behind, Outstanding, AgesOk;
    var e := s.engine;
    FindOk(e, op.name);
    forall h | InUse(Step(s, op).0, h) ensures InUse(s, h) && SameEnds(e, Step(s, op).0.engine, h.name) {
      if IsQueue(e, op.name) && op.token in e.index[op.name].unacked {
        ForgetOutstanding(e.index[op.name], op.token, h.token);
        assert Outstanding(e.index[op.name], op.token) by { RecordedOutstanding(e.index[op.name], op.token); }
      }
    }
    StillKeeps(s, ages, op);
  }

  lemma RecordedOutstanding(info: Info, token: Bytes)
    requires token in info.unacked
    ensures Outstanding(info, token)
  {
  }

  /** A purge touches its own queue only, and nothing of that is in use. */
  lemma PurgeKeepsAges(s: System, ages: Ages, op: Op)
    requires Mapped(s.engine) && op.OpPurge? && AgesOk(s, ages) && Prompt(s, ages, op)
    ensures AgesOk(Step(s, op).0, Aged(s, ages, op))
  {
    hide NameOk, PurgeKeys, IndexOk, SlotNames, Offsets, Real, RealItem, Outstanding, Behind, AgesOk;
    var e, s1 := s.engine, Step(s, op).0;
    FindOk(e, op.name);
    forall h | InUse(s1, h) ensures InUse(s, h) && SameEnds(e, s1.engine, h.name) {
      assert h.name != op.name || s1 == s;
      if IsQueue(e, h.name) && IsQueue(e, op.name) {
        OwnSlot(e, op.name, h.name);
      }
    }
    StillKeeps(s, ages, op);
  }

  lemma SettingsKeepAges(s: System, ages: Ages, op: Op)
    requires Mapped(s.engine) && (op.OpMax? || op.OpLock?) && AgesOk(s, ages)
    ensures AgesOk(Step(s, op).0, Aged(s, ages, op))
  {
    hide NameOk, IndexOk, SlotNames, Offsets, Outstanding, Behind, AgesOk;
    var e, s1 := s.engine, Step(s, op).0;
    FindOk(e, op.name);
    forall h | InUse(s1, h) ensures InUse(s, h) && SameEnds(e, s1.engine, h.name) {
      if IsQueue(e, h.name) && IsQueue(e, op.name) {
        OwnSlot(e, op.name, h.name);
      }
    }
    StillKeeps(s, ages, op);
  }

  lemma RestKeepsAges(s: System, ages: Ages, op: Op)
    requires Mapped(s.engine) && (op.OpDrop? || op.OpRestart? || op.OpClock?) && AgesOk(s, ages)
    ensures AgesOk(Step(s, op).0, Aged(s, ages, op))
  {
    hide Behind, AgesOk, Restart, Mapped;
    if op.OpRestart? {
      RestartKeepsMap(s.engine);
    }
    StillKeeps(s, ages, op);
  }

  /** One step: the next put is fresh, and no end runs away from a tag in use. */
  lemma LapStep(s: System, ages: Ages, op: Op)
    requires Mapped(s.engine) && AgesOk(s, ages) && Prompt(s, ages, op)
    ensures FreshPut(s, op) && AgesOk(Step(s, op).0, Aged(s, ages, op))
  {
    hide Mapped, AgesOk, Prompt, Step, Aged, FreshPut;
    LapIsFresh(s, ages, op);
    match op
    case OpPut(_, _, _, _) => PutKeepsAges(s, ages, op);
    case OpGet(_, _, _, _, _) => GetKeepsAges(s, ages, op);
    case OpAck(_, _) => AckKeepsAges(s, ages, op);
    case OpPurge(_, _, _) => PurgeKeepsAges(s, ages, op);
    case OpMax(_, _) => SettingsKeepAges(s, ages, op);
    case OpLock(_, _) => SettingsKeepAges(s, ages, op);
    case _ => RestKeepsAges(s, ages, op);
  }

  /** A run is fresh if every item is deleted before its priority has taken a lap of puts since
      the item was handed out: 6 000 000 of them, whatever the queue holds. */
  lemma {:induction false} PromptRunIsFresh(s: System, ages: Ages, ops: seq<Op>)
    requires Mapped(s.engine) && AgesOk(s, ages) && PromptRun(s, ages, ops)
    ensures FreshRun(s, ops)
    decreases |ops|
  {
    hide Mapped, AgesOk, Prompt, Step, Aged, FreshPut;
    if ops != [] {
      LapStep(s, ages, ops[0]);
      StepKeepsMapped(s, ops[0]);
      PromptRunIsFresh(Step(s, ops[0]).0, Aged(s, ages, ops[0]), ops[1..]);
    }
  }

  /** From a settled server, every prompt run is a run of first-in-first-out sequences in every
      state and every answer, redeliveries included. */
  lemma PromptRunFollows(s: System, ages: Ages, ops: seq<Op>)
    requires Settled(s) && PromptRun(s, ages, ops)
    ensures Mapped(s.engine) && Follows(s, Abs(s.engine), ops)
  {
    hide Inv, Abs, Follows, CleanRun, FreshRun, PromptRun, Separate;
    MappedOf(s.engine);
    SettledSeparates(s);
    PromptRunIsFresh(s, ages, ops);
    FreshRunIsClean(s, ops);
    RunRefines(s, ops);
  }

  function Puts(ops: seq<Op>): nat {
    if ops == [] then 0 else (if ops[0].OpPut? then 1 else 0) + Puts(ops[1..])
  }

  /** A run without purges and with at most a lap of puts is prompt, whenever its deletions come. */
  lemma {:induction false} ShortRunIsPrompt(s: System, ages: Ages, k: nat, ops: seq<Op>)
    requires forall h :: ages(h) <= k
    requires k + Puts(ops) <= LAP && forall i :: 0 <= i < |ops| ==> !ops[i].OpPurge?
    ensures PromptRun(s, ages, ops)
    decreases |ops|
  {
    hide InUse, OfPriority, Step;
    if ops != [] {
      ShortRunIsPrompt(Step(s, ops[0]).0, Aged(s, ages, ops[0]), if ops[0].OpPut? then k + 1 else k, ops[1..]);
    }
  }
}
