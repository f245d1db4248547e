/** Runs in which no put takes a tag that is still in use: then no deletion hits a ready item. */
module QueueSeparation {
  import opened Bytes
  import opened QueueRing
  import opened QueueKeys
  import opened SlotIndex
  import opened QueueModel
  import opened QueueRefinement
  import opened QueueRuns
  import opened QueuePurge
  import opened QueueSystem
  import opened QueueTheorems

  /** The token waits for an acknowledgement. */
  predicate Outstanding(info: Info, token: Bytes) {
    token in info.unacked || exists i :: 0 <= i < |info.redelivery| && info.redelivery[i].token == token
  }

  ghost predicate Apart(e: Engine) {
    forall n, p, t :: IsReady(e, n, p, t) ==> !Outstanding(e.index[n], Token(p, t))
  }

  ghost predicate PromisesApart(e: Engine, pending: seq<Promise>) {
    forall i :: 0 <= i < |pending| ==> NotReady(e, pending[i].name, pending[i].token)
  }

  /** No ready item has a token that is outstanding or about to be deleted. */
  ghost predicate Separate(s: System) {
    Apart(s.engine) && PromisesApart(s.engine, s.pending)
  }

  /** The tag the next put to a queue would use. */
  function NextTag(e: Engine, name: Bytes, p: nat): nat
    requires p < 3
  {
    if name in e.index && e.index[name].offset < |e.slots| then Next(SlotOf(e, name).rings[p].ep) else Next(0)
  }

  /** A put does not take a tag that is outstanding or about to be deleted. */
  predicate FreshPut(s: System, op: Op) {
    op.OpPut? && op.p < 3 ==>
      var token := Token(op.p, NextTag(s.engine, op.name, op.p));
      && (op.name in s.engine.index ==> !Outstanding(s.engine.index[op.name], token))
      && Promise(op.name, token) !in s.pending
  }

  // ---------------------------------------------------------------- ready tags

  /** Every ready tag of e1 was ready in e. */
  ghost predicate Shrinks(e: Engine, e1: Engine) {
    forall n, q, t :: IsReady(e1, n, q, t) ==> IsReady(e, n, q, t)
  }

  /** Every outstanding token of a queue of e1 was outstanding in e. */
  ghost predicate Fewer(e: Engine, e1: Engine) {
    forall n, token :: n in e.index && n in e1.index && Outstanding(e1.index[n], token) ==> Outstanding(e.index[n], token)
  }

  lemma ShrinkingKeeps(e: Engine, e1: Engine, pending: seq<Promise>)
    requires Apart(e) && PromisesApart(e, pending) && Shrinks(e, e1) && Fewer(e, e1)
    ensures Apart(e1) && PromisesApart(e1, pending)
  {
    hide Outstanding, Token;
  }

  lemma FewerOutstanding(info: Info, less: Info, token: Bytes)
    requires less.unacked.Keys <= info.unacked.Keys
    requires forall d :: d in less.redelivery ==> d in info.redelivery
    ensures Outstanding(less, token) ==> Outstanding(info, token)
  {
    if i :| 0 <= i < |less.redelivery| && less.redelivery[i].token == token {
      assert less.redelivery[i] in info.redelivery;
      var j :| 0 <= j < |info.redelivery| && info.redelivery[j] == less.redelivery[i];
    }
  }

  lemma {:induction false} InsertDueTokens(list: seq<Due>, d: Due, x: Due)
    ensures x in InsertDue(list, d) <==> x == d || x in list
  {
    if list != [] && d.time >= list[0].time {
      InsertDueTokens(list[1..], d, x);
    }
  }

  lemma {:induction false} EraseDueTokens(list: seq<Due>, d: Due)
    ensures forall x :: x in EraseDue(list, d) ==> x in list
  {
    if list != [] && list[0] != d {
      EraseDueTokens(list[1..], d);
    }
  }

  lemma RememberOutstanding(info: Info, token: Bytes, now: nat, other: Bytes)
    ensures Outstanding(Remember(info, token, now), other) ==> other == token || Outstanding(info, other)
  {
    var list := Remember(info, token, now).redelivery;
    if i :| 0 <= i < |list| && list[i].token == other {
      InsertDueTokens(info.redelivery, Due(now, token), list[i]);
    }
  }

  lemma ForgetOutstanding(info: Info, token: Bytes, other: Bytes)
    requires token in info.unacked
    ensures Outstanding(Forget(info, token), other) ==> Outstanding(info, other)
  {
    EraseDueTokens(info.redelivery, Due(info.unacked[token], token));
    FewerOutstanding(info, Forget(info, token), other);
  }

  // ---------------------------------------------------------------- operations

  lemma OpenSeparates(e: Engine, name: Bytes, pending: seq<Promise>)
    requires Mapped(e) && NameOk(name) && Apart(e) && PromisesApart(e, pending)
    ensures var e1 := FindOrCreate(e, name).0;
      Apart(e1) && PromisesApart(e1, pending)
  {
    hide NameOk, FindOrCreate, IndexOk, SlotNames, Offsets, Token, FifoOf, RingsOk;
    OpenIs(e, name);
    var e1 := FindOrCreate(e, name).0;
    var i := FirstFree(SlotNames(e.slots), 0);
    if name !in e.index && i < |e.slots| {
      CreateKeepsMapped(e, name, i);
      NewSlotRings(e, name);
      assert Shrinks(e, e1);
      ShrinkingKeeps(e, e1, pending);
    }
  }

  /** A put makes exactly one more tag ready. */
  lemma PushReady(e: Engine, name: Bytes, item: Bytes, p: nat)
    requires Mapped(e) && IsQueue(e, name) && p < 3 && !Full(SlotOf(e, name))
    ensures var e1 := Push(e, e.index[name].offset, name, item, p);
      forall n, q, t :: IsReady(e1, n, q, t) <==>
        IsReady(e, n, q, t) || (n == name && q == p && t == Next(SlotOf(e, name).rings[p].ep))
  {
    hide NameOk, ItemKey, Tags, Next, IndexOk, SlotNames, Offsets, Items;
    var s := SlotOf(e, name);
    var r := s.rings[p];
    RealIsCount(e.store, s);
    PushTag(r);
    SetRingKeepsMapped(e, name, p, r.(ep := Next(r.ep)));
  }

  lemma PushSeparates(e: Engine, name: Bytes, item: Bytes, p: nat, pending: seq<Promise>)
    requires Mapped(e) && IsQueue(e, name) && p < 3 && !Full(SlotOf(e, name)) && Apart(e) && PromisesApart(e, pending)
    requires var token := Token(p, Next(SlotOf(e, name).rings[p].ep));
      !Outstanding(e.index[name], token) && Promise(name, token) !in pending
    ensures var e1 := Push(e, e.index[name].offset, name, item, p);
      Apart(e1) && PromisesApart(e1, pending)
  {
    hide Mapped, Outstanding, Token, Next, IsReady, Full, ItemKey;
    OffsetInRange(e, name);
    PushReady(e, name, item, p);
    var e1 := Push(e, e.index[name].offset, name, item, p);
    var tag := Next(SlotOf(e, name).rings[p].ep);
    forall i | 0 <= i < |pending| ensures NotReady(e1, pending[i].name, pending[i].token) {
      forall q, t | IsReady(e1, pending[i].name, q, t) ensures Token(q, t) != pending[i].token {
        assert pending[i] in pending && pending[i] == Promise(pending[i].name, pending[i].token);
        assert IsReady(e, pending[i].name, q, t) || (pending[i].name == name && q == p && t == tag);
      }
    }
  }

  lemma PutSeparates(s: System, op: Op)
    requires SystemOk(s) && Separate(s) && op.OpPut? && FreshPut(s, op)
    ensures Separate(Step(s, op).0)
  {
    hide NameOk, Mapped, Stored, Push, FindOrCreate, Full, Outstanding, Token, Next, NewSlot, PromisesApart, Apart;
    var e := s.engine;
    if NameOk(op.name) {
      OpenSeparates(e, op.name, s.pending);
      OpenKeepsMapped(e, op.name);
      var (e1, at) := FindOrCreate(e, op.name);
      if op.p <= 2 && at.Some? && !Full(e1.slots[at.value]) {
        NextTagAfterOpen(s, op);
        PushSeparates(e1, op.name, op.item, op.p, s.pending);
      }
    }
  }

  lemma NextTagAfterOpen(s: System, op: Op)
    requires Mapped(s.engine) && op.OpPut? && op.p < 3 && FreshPut(s, op) && NameOk(op.name)
    ensures var e1 := FindOrCreate(s.engine, op.name).0;
      op.name in e1.index ==>
        && e1.index[op.name].offset < |e1.slots|
        && !Outstanding(e1.index[op.name], Token(op.p, Next(SlotOf(e1, op.name).rings[op.p].ep)))
        && Promise(op.name, Token(op.p, Next(SlotOf(e1, op.name).rings[op.p].ep))) !in s.pending
  {
    hide NameOk, FindOrCreate, IndexOk, SlotNames, Offsets, Token, RingsOk, Next;
    OpenIs(s.engine, op.name);
  }

  /** The delivered token is not ready, and recording it keeps the outstanding tokens apart. */
  lemma GetSeparates(s: System, op: Op)
    requires SystemOk(s) && Separate(s) && op.OpGet?
    ensures Separate(Step(s, op).0)
  {
    hide NameOk, Mapped, Stored, Get, Outstanding, Token, NotReady;
    GetApart(s.engine, s.pending, op.name, op.worker, op.isAck, op.fault);
  }

  lemma ChooseApart(e: Engine, pending: seq<Promise>, name: Bytes)
    requires Inv(e) && Apart(e) && PromisesApart(e, pending) && IsQueue(e, name)
    ensures var (e1, token) := Choose(e, e.index[name].offset, name);
      && Apart(e1) && PromisesApart(e1, pending) && IsQueue(e1, name) && Mapped(e1)
      && (token.Some? ==> NotReady(e1, name, token.value))
  {
    hide NameOk, Token, Key, IndexOk, SlotNames, Offsets, Next, Items, ItemKey, FifoOf, RingsOk, Tags;
    ChooseRefines(e, name);
    MappedOf(e);
    ChooseKeepsMapped(e, name);
    ChooseShrinks(e, name);
    var (e1, token) := Choose(e, e.index[name].offset, name);
    if Overdue(e, name) {
      assert Outstanding(e.index[name], e.index[name].redelivery[0].token);
    }
    ShrinkingKeeps(e, e1, pending);
  }

  lemma InfoShrinks(e: Engine, name: Bytes, less: Info)
    requires Mapped(e) && IsQueue(e, name) && less.offset == e.index[name].offset
    requires forall token :: Outstanding(less, token) ==> Outstanding(e.index[name], token)
    ensures var e1 := e.(index := e.index[name := less]);
      Shrinks(e, e1) && Fewer(e, e1)
  {
    hide Mapped, Outstanding, IsReady;
    InfoKeepsMapped(e, name, less);
  }

  lemma PopShrinks(e: Engine, name: Bytes, p: nat)
    requires Mapped(e) && IsQueue(e, name) && p < 3 && Size(SlotOf(e, name).rings[p]) > 0
    ensures var r := SlotOf(e, name).rings[p];
      var e1 := SetRing(e, e.index[name].offset, p, r.(sp := Next(r.sp)));
      Shrinks(e, e1) && Fewer(e, e1)
  {
    hide NameOk, Tags, Next, IndexOk, SlotNames, Offsets, Outstanding;
    var r := SlotOf(e, name).rings[p];
    PopTag(r);
    SetRingKeepsMapped(e, name, p, r.(sp := Next(r.sp)));
    var e1 := SetRing(e, e.index[name].offset, p, r.(sp := Next(r.sp)));
    forall n, q, t | IsReady(e1, n, q, t) ensures IsReady(e, n, q, t) {
      if n == name && q == p { assert t in Tags(r)[1..]; }
    }
  }

  lemma ChooseShrinks(e: Engine, name: Bytes)
    requires Mapped(e) && IsQueue(e, name)
    ensures var e1 := Choose(e, e.index[name].offset, name).0;
      Shrinks(e, e1) && Fewer(e, e1)
  {
    hide NameOk, Next, IndexOk, SlotNames, Offsets, Token, Items, Shrinks, Fewer, Outstanding;
    var s := SlotOf(e, name);
    RealIsCount(e.store, s);
    UntouchedShrinks(e, e);
    if Overdue(e, name) {
      var info := e.index[name];
      var less := info.(redelivery := info.redelivery[1..]);
      forall token ensures Outstanding(less, token) ==> Outstanding(info, token) {
        FewerOutstanding(info, less, token);
      }
      InfoShrinks(e, name, less);
    } else if Pick(s).Some? {
      PopShrinks(e, name, Pick(s).value);
    }
  }

  lemma RecordApart(e: Engine, pending: seq<Promise>, name: Bytes, token: Bytes)
    requires Mapped(e) && Apart(e) && PromisesApart(e, pending) && IsQueue(e, name) && NotReady(e, name, token)
    ensures var e1 := e.(index := e.index[name := Remember(e.index[name], token, e.now)]);
      Apart(e1) && PromisesApart(e1, pending) && NotReady(e1, name, token)
  {
    hide NameOk, Token, Mapped, Remember, Outstanding, Tags;
    var info := Remember(e.index[name], token, e.now);
    var e1 := e.(index := e.index[name := info]);
    RememberKeepsOffset(e.index[name], token, e.now);
    InfoKeepsMapped(e, name, info);
    forall n, q, t | IsReady(e1, n, q, t) ensures !Outstanding(e1.index[n], Token(q, t)) {
      assert IsReady(e, n, q, t);
      RememberOutstanding(e.index[name], token, e.now, Token(q, t));
    }
  }

  lemma GetApart(e: Engine, pending: seq<Promise>, name: Bytes, worker: Bytes, isAck: bool, fault: bool)
    requires Inv(e) && Apart(e) && PromisesApart(e, pending)
    ensures var (e1, d) := Get(e, name, worker, isAck, fault);
      Apart(e1) && PromisesApart(e1, pending) && (d.code.Ok? ==> NotReady(e1, name, d.token))
  {
    hide NameOk, Token, Key, Inv, Choose, Remember, NotReady, Apart, PromisesApart, Mapped;
    MappedOf(e);
    FindOk(e, name);
    if IsQueue(e, name) {
      ChooseApart(e, pending, name);
      var (e1, token) := Choose(e, e.index[name].offset, name);
      if token.Some? {
        RecordApart(e1, pending, name, token.value);
      }
    }
  }

  lemma AckSeparates(s: System, op: Op)
    requires SystemOk(s) && Separate(s) && op.OpAck?
    ensures Separate(Step(s, op).0)
  {
    hide NameOk, Token, Mapped, Stored, EraseDue;
    var e := s.engine;
    if IsQueue(e, op.name) && op.token in e.index[op.name].unacked {
      var info := e.index[op.name];
      var e1 := e.(index := e.index[op.name := Forget(info, op.token)]);
      forall token ensures Outstanding(Forget(info, op.token), token) ==> Outstanding(info, token) {
        ForgetOutstanding(info, op.token, token);
      }
      InfoShrinks(e, op.name, Forget(info, op.token));
      ShrinkingKeeps(e, e1, s.pending);
      assert Outstanding(info, op.token);
      assert NotReady(e1, op.name, op.token);
    }
  }

  lemma PurgeShrinks(e: Engine, name: Bytes, p: nat, stuck: set<Bytes>)
    requires Mapped(e)
    ensures var e1 := Purge(e, name, p, stuck).0;
      Shrinks(e, e1) && Fewer(e, e1)
  {
    hide NameOk, PurgeKeys, IndexOk, SlotNames, Offsets, Real, RealItem, RingsOk, Outstanding;
    FindOk(e, name);
    if p <= 2 && IsQueue(e, name) {
      FreeKeepsMapped(e, name);
      ClearedRings(SlotOf(e, name), p);
      SetRingKeepsMapped(e, name, p, EMPTY_RING);
    }
  }

  lemma SettingsShrink(e: Engine, name: Bytes, max: nat, lock: bool)
    requires Mapped(e)
    ensures Shrinks(e, SetMax(e, name, max).0) && Fewer(e, SetMax(e, name, max).0)
    ensures Shrinks(e, SetLock(e, name, lock).0) && Fewer(e, SetLock(e, name, lock).0)
  {
    hide NameOk, IndexOk, SlotNames, Offsets, RingsOk, Outstanding, Tags;
    if IsQueue(e, name) {
      SettingsKeepSlots(e, name, SlotOf(e, name).(max := max));
      SettingsKeepSlots(e, name, SlotOf(e, name).(lock := lock));
    }
  }

  lemma RestartShrinks(e: Engine)
    requires Mapped(e)
    ensures Shrinks(e, Restart(e)) && Fewer(e, Restart(e))
  {
    hide Restart, IndexOk, SlotNames, Offsets, NameOk, RingsOk, Tags;
    RestartKeepsMap(e);
    RestartKeepsRest(e);
  }

  lemma UntouchedShrinks(e: Engine, e1: Engine)
    requires e1.slots == e.slots && e1.index == e.index
    ensures Shrinks(e, e1) && Fewer(e, e1)
  {
  }

  /** A step without a reused tag deletes no ready item, and keeps the tokens apart. */
  lemma StepSeparates(s: System, op: Op)
    requires SystemOk(s) && Separate(s) && FreshPut(s, op)
    ensures Clean(s, op) && Separate(Step(s, op).0)
  {
    hide NameOk, Mapped, Stored, Put, Get, Unrecord, Purge, SetMax, SetLock, Restart, Shrinks, Fewer, FreshPut, NotReady, Apart;
    var e := s.engine;
    var s1 := Step(s, op).0;
    match op
    case OpPut(_, _, _, _) => PutSeparates(s, op);
    case OpGet(_, _, _, _, _) => GetSeparates(s, op);
    case OpAck(_, _) => AckSeparates(s, op);
    case OpDrop(i, _) => UntouchedShrinks(e, s1.engine); ShrinkingKeeps(e, s1.engine, s.pending);
    case OpPurge(name, p, stuck) => PurgeShrinks(e, name, p, stuck); ShrinkingKeeps(e, s1.engine, s.pending);
    case OpMax(name, max) => SettingsShrink(e, name, max, false); ShrinkingKeeps(e, s1.engine, s.pending);
    case OpLock(name, lock) => SettingsShrink(e, name, 0, lock); ShrinkingKeeps(e, s1.engine, s.pending);
    case OpRestart => RestartShrinks(e); ShrinkingKeeps(e, s1.engine, s.pending);
    case OpClock(_) => UntouchedShrinks(e, s1.engine); ShrinkingKeeps(e, s1.engine, s.pending);
  }

  predicate FreshRun(s: System, ops: seq<Op>)
    decreases |ops|
  {
    ops == [] || (FreshPut(s, ops[0]) && FreshRun(Step(s, ops[0]).0, ops[1..]))
  }

  /** If no put takes a tag that is outstanding or about to be deleted, no deletion hits a ready
      item, whatever comes between a delivery and its deletion. */
  lemma {:induction false} FreshRunIsClean(s: System, ops: seq<Op>)
    requires SystemOk(s) && Separate(s) && FreshRun(s, ops)
    ensures CleanRun(s, ops) && SystemOk(Run(s, ops).0) && Separate(Run(s, ops).0)
    decreases |ops|
  {
    hide SystemOk, Separate, FreshPut, Clean, Step;
    if ops != [] {
      StepSeparates(s, ops[0]);
      StepKeepsOk(s, ops[0]);
      FreshRunIsClean(Step(s, ops[0]).0, ops[1..]);
    }
  }

  lemma StepKeepsOk(s: System, op: Op)
    requires SystemOk(s) && Clean(s, op)
    ensures SystemOk(Step(s, op).0)
  {
    StepExact(s, op);
  }

  /** First in, first out, for every run in which gets are acknowledged by the server and no put
      takes a tag whose deletion is pending. */
  lemma FreshRunIsFifo(s: System, ops: seq<Op>)
    requires SystemOk(s) && Separate(s) && Quiet(s.engine) && FreshRun(s, ops)
    requires forall i :: 0 <= i < |ops| ==> !ops[i].OpAck? && (ops[i].OpGet? ==> ops[i].isAck)
    ensures Mapped(s.engine) && Mapped(Run(s, ops).0.engine)
    ensures Abs(Run(s, ops).0.engine) == SpecRun(Abs(s.engine), ops).0
    ensures |Run(s, ops).1| == |SpecRun(Abs(s.engine), ops).1| == |ops|
    ensures forall i :: 0 <= i < |ops| && !ops[i].OpDrop? ==>
              SameOut(Run(s, ops).1[i], SpecRun(Abs(s.engine), ops).1[i])
  {
    hide SystemOk, Separate, Quiet, CleanRun, FreshRun, Run, SpecRun, Mapped, Abs;
    FreshRunIsClean(s, ops);
    AcknowledgedRunIsFifo(s, ops);
  }
}
