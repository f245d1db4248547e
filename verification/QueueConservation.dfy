/** Where every stored item is: ready, in use, or lost, and what loses it. */
module QueueConservation {
  import opened Bytes
  import opened QueueRing
  import opened QueueKeys
  import opened SlotIndex
  import opened QueueModel
  import opened QueueRefinement
  import opened QueueRuns
  import opened QueuePurge
  import opened QueueSystem
  import opened QueueTheorems
  import opened QueueSeparation
  import opened QueueLaps

  /** h stands for a stored item with priority p and tag t of a queue of items. */
  ghost predicate Item(e: Engine, h: Promise, p: nat, t: nat) {
    && NameOk(h.name) && (h.name in e.index ==> IsQueue(e, h.name))
    && h.token == Token(p, t) && Key(h.name, h.token) in e.store
  }

  /** The item can still be handed out, or its acknowledgement or deletion can still come. */
  ghost predicate Kept(s: System, h: Promise, p: nat, t: nat) {
    IsReady(s.engine, h.name, p, t) || InUse(s, h)
  }

  type Losses = Promise -> bool

  /** The lost items are exactly the stored ones that are neither ready nor in use. */
  ghost predicate Balanced(s: System, lost: Losses) {
    forall h, p, t :: Item(s.engine, h, p, t) ==> (lost(h) <==> !Kept(s, h, p, t))
  }

  /** The get takes the item out and neither records it nor is going to delete it. */
  ghost predicate Consumes(s: System, op: Op, h: Promise) {
    && op.OpGet? && NameOk(op.name) && 4 < |op.worker| <= 32 && IsQueue(s.engine, op.name) && h.name == op.name
    && (op.fault || (op.isAck && !op.replied))
    && var (e1, token) := Choose(s.engine, s.engine.index[op.name].offset, op.name);
       token == Some(h.token) && !Outstanding(e1.index[op.name], h.token) && h !in s.pending
  }

  /** The deletion fails, and nothing else is to come for the item. */
  ghost predicate Abandons(s: System, op: Op, h: Promise) {
    && op.OpDrop? && op.fault && op.i < |s.pending| && s.pending[op.i] == h
    && !InUse(s.(pending := Without(s.pending, op.i)), h)
  }

  /** The purge forgets the queue with its unacknowledged items, or cannot delete a ready item. */
  ghost predicate Strands(s: System, op: Op, h: Promise) {
    && op.OpPurge? && NameOk(op.name) && op.p <= 2 && IsQueue(s.engine, op.name) && h.name == op.name
    && var slot := SlotOf(s.engine, op.name);
       if Real(slot) == RealItem(slot.rings[op.p].sp, slot.rings[op.p].ep) then h !in s.pending
       else Key(h.name, h.token) in op.stuck && exists t :: IsReady(s.engine, op.name, op.p, t) && h.token == Token(op.p, t)
  }

  /** What an operation loses; a put that takes the tag again ends the loss. */
  ghost predicate Loses(s: System, op: Op, h: Promise) {
    || Consumes(s, op, h) || Abandons(s, op, h) || Strands(s, op, h) || (op.OpRestart? && InUse(s, h))
  }

  ghost predicate Replaces(s: System, op: Op, h: Promise) {
    op.OpPut? && op.p < 3 && Step(s, op).1.code.Ok? && h == Promise(op.name, Token(op.p, NextTag(s.engine, op.name, op.p)))
  }

  ghost function LostNext(s: System, lost: Losses, op: Op): Losses {
    h => (lost(h) && !Replaces(s, op, h)) || Loses(s, op, h)
  }

  ghost function LostAfter(s: System, lost: Losses, ops: seq<Op>): Losses
    decreases |ops|
  {
    if ops == [] then lost else LostAfter(Step(s, ops[0]).0, LostNext(s, lost, ops[0]), ops[1..])
  }

  // ---------------------------------------------------------------- put

  lemma PutReady(s: System, op: Op, n: Bytes, q: nat, t: nat)
    requires Mapped(s.engine) && op.OpPut?
    ensures IsReady(Step(s, op).0.engine, n, q, t) <==>
      IsReady(s.engine, n, q, t) || Replaces(s, op, Promise(n, Token(q, t)))
  {
    hide NameOk, FindOrCreate, IndexOk, SlotNames, Offsets, Full, Push, Token, Next, Tags;
    var e := s.engine;
    if NameOk(op.name) && op.p <= 2 && op.item != [] && !e.over {
      OpenIs(e, op.name);
      OpenKeepsMapped(e, op.name);
      OpenReady(e, op.name, n, q, t);
      NextTagOpened(e, op.name, op.p);
      var (e1, at) := FindOrCreate(e, op.name);
      if at.Some? && !Full(e1.slots[at.value]) && !op.fault {
        PushReady(e1, op.name, op.item, op.p);
        if Token(q, t) == Token(op.p, NextTag(e1, op.name, op.p)) { TokenInjective(q, t, op.p, NextTag(e1, op.name, op.p)); }
      }
    }
  }

  lemma OpenReady(e: Engine, name: Bytes, n: Bytes, q: nat, t: nat)
    requires Mapped(e) && NameOk(name)
    ensures IsReady(FindOrCreate(e, name).0, n, q, t) <==> IsReady(e, n, q, t)
  {
    hide NameOk, FindOrCreate, IndexOk, SlotNames, Offsets, RingsOk, NewSlot, Tags;
    OpenIs(e, name);
    NewSlotRings(e, name);
    var i := FirstFree(SlotNames(e.slots), 0);
    if name !in e.index && i < |e.slots| {
      CreateKeepsMapped(e, name, i);
    }
  }

  lemma NextTagOpened(e: Engine, name: Bytes, p: nat)
    requires Mapped(e) && NameOk(name) && p < 3
    ensures NextTag(FindOrCreate(e, name).0, name, p) == NextTag(e, name, p)
  {
    hide NameOk, FindOrCreate, IndexOk, SlotNames, Offsets, RingsOk, Next;
    OpenIs(e, name);
  }

  lemma PutItems(s: System, op: Op, h: Promise, p: nat, t: nat)
    requires Mapped(s.engine) && op.OpPut? && Item(Step(s, op).0.engine, h, p, t)
    ensures Item(s.engine, h, p, t) || Replaces(s, op, h)
    ensures InUse(Step(s, op).0, h) <==> InUse(s, h)
  {
    hide NameOk, FindOrCreate, IndexOk, SlotNames, Offsets, RingsOk, Full, Token, Next, NewSlot, Outstanding, Key;
    var e := s.engine;
    OpenIs(e, op.name);
    if NameOk(op.name) && op.p <= 2 {
      NextTagOpened(e, op.name, op.p);
      OpenKeepsMapped(e, op.name);
      OpenUses(s, op.name, h);
      var tag := NextTag(e, op.name, op.p);
      if Key(h.name, h.token) == ItemKey(op.name, op.p, tag) { KeyInjective(h.name, h.token, op.name, Token(op.p, tag)); }
    }
  }

  lemma OpenUses(s: System, name: Bytes, h: Promise)
    requires Mapped(s.engine) && NameOk(name)
    ensures InUse(s.(engine := FindOrCreate(s.engine, name).0), h) <==> InUse(s, h)
  {
    hide NameOk, FindOrCreate, IndexOk, SlotNames, Offsets, RingsOk, NewSlot;
    OpenIs(s.engine, name);
  }

  lemma PutBalances(s: System, lost: Losses, op: Op)
    requires Mapped(s.engine) && op.OpPut? && Balanced(s, lost)
    ensures Balanced(Step(s, op).0, LostNext(s, lost, op))
  {
    hide Mapped, Step, Item, InUse, Replaces, IsReady;
    var s1 := Step(s, op).0;
    forall h, p, t | Item(s1.engine, h, p, t) ensures LostNext(s, lost, op)(h) <==> !Kept(s1, h, p, t) {
      PutItems(s, op, h, p, t);
      PutReady(s, op, h.name, p, t);
      assert h == Promise(h.name, Token(p, t)) by { ItemToken(s1.engine, h, p, t); }
      assert !Loses(s, op, h);
      assert Item(s.engine, h, p, t) ==> (lost(h) <==> !Kept(s, h, p, t));
    }
  }

  lemma ItemToken(e: Engine, h: Promise, p: nat, t: nat)
    requires Item(e, h, p, t)
    ensures NameOk(h.name) && h.token == Token(p, t) && Key(h.name, h.token) in e.store
  {
  }

  // ---------------------------------------------------------------- get

  lemma PopReady(e: Engine, name: Bytes, p: nat, n: Bytes, q: nat, t: nat)
    requires Mapped(e) && IsQueue(e, name) && p < 3
    requires InRange(SlotOf(e, name).rings[p]) && Size(SlotOf(e, name).rings[p]) > 0
    ensures var r := SlotOf(e, name).rings[p];
      IsReady(SetRing(e, e.index[name].offset, p, r.(sp := Next(r.sp))), n, q, t) <==>
      IsReady(e, n, q, t) && !(n == name && q == p && t == Next(r.sp))
  {
    hide NameOk, Tags, Next, IndexOk, SlotNames, Offsets;
    var r := SlotOf(e, name).rings[p];
    PopTag(r);
    SetRingKeepsMapped(e, name, p, r.(sp := Next(r.sp)));
    assert Tags(r) == [Next(r.sp)] + Tags(r)[1..];
  }

  lemma ChooseReady(e: Engine, name: Bytes, n: Bytes, q: nat, t: nat)
    requires Mapped(e) && IsQueue(e, name)
    ensures var (e1, token) := Choose(e, e.index[name].offset, name);
      IsReady(e1, n, q, t) <==> IsReady(e, n, q, t) && (Overdue(e, name) || n != name || token != Some(Token(q, t)))
  {
    hide NameOk, Mapped, IsReady, Next, Token, Real, InRange;
    var s := SlotOf(e, name);
    RingsAre(e, name);
    RealIsCount(e.store, s);
    if Overdue(e, name) {
      InfoKeepsMapped(e, name, e.index[name].(redelivery := e.index[name].redelivery[1..]));
    } else if Pick(s).Some? {
      var p := Pick(s).value;
      PopReady(e, name, p, n, q, t);
      if Token(q, t) == Token(p, Next(s.rings[p].sp)) { TokenInjective(q, t, p, Next(s.rings[p].sp)); }
    }
  }

  lemma ChooseUsesExact(e: Engine, name: Bytes, token: Bytes)
    requires IsQueue(e, name) && Choose(e, e.index[name].offset, name).1 != Some(token)
    ensures Outstanding(Choose(e, e.index[name].offset, name).0.index[name], token) <==> Outstanding(e.index[name], token)
  {
    hide Token, Next, Pick;
    ChooseUses(e, name, token);
    var info := e.index[name];
    if Overdue(e, name) && Outstanding(info, token) && token !in info.unacked {
      var i :| 0 <= i < |info.redelivery| && info.redelivery[i].token == token;
      assert info.redelivery[1..][i - 1].token == token;
    }
  }

  lemma RememberUses(info: Info, token: Bytes, now: nat, other: Bytes)
    ensures Outstanding(Remember(info, token, now), other) <==> other == token || Outstanding(info, other)
  {
    RememberOutstanding(info, token, now, other);
    if other != token && Outstanding(info, other) && other !in info.unacked {
      var i :| 0 <= i < |info.redelivery| && info.redelivery[i].token == other;
      InsertDueTokens(info.redelivery, Due(now, token), info.redelivery[i]);
    }
  }

  /** The token the get works on. */
  ghost predicate Chosen(s: System, op: Op, h: Promise) {
    && op.OpGet? && NameOk(op.name) && 4 < |op.worker| <= 32 && IsQueue(s.engine, op.name) && h.name == op.name
    && Choose(s.engine, s.engine.index[op.name].offset, op.name).1 == Some(h.token)
  }

  lemma ChooseKeepsKinds(e: Engine, name: Bytes, n: Bytes)
    requires IsQueue(e, name)
    ensures var e1 := Choose(e, e.index[name].offset, name).0;
      && e1.index.Keys == e.index.Keys && e1.store == e.store
      && (IsQueue(e1, n) <==> IsQueue(e, n))
  {
    hide Token, Next, Pick;
  }

  lemma GetKeepsItems(s: System, op: Op, h: Promise, p: nat, t: nat)
    requires op.OpGet? && Item(Step(s, op).0.engine, h, p, t)
    ensures Item(s.engine, h, p, t)
  {
    hide NameOk, Choose, Remember, Token, Key;
    var e := s.engine;
    FindOk(e, op.name);
    if NameOk(op.name) && IsQueue(e, op.name) {
      ChooseKeepsKinds(e, op.name, h.name);
      var (e1, token) := Choose(e, e.index[op.name].offset, op.name);
      if token.Some? {
        RememberKeepsOffset(e1.index[op.name], token.value, e1.now);
      }
    }
  }

  lemma GetReady(s: System, op: Op, n: Bytes, q: nat, t: nat)
    requires Mapped(s.engine) && op.OpGet?
    ensures IsReady(Step(s, op).0.engine, n, q, t) <==>
      IsReady(s.engine, n, q, t) && (Chosen(s, op, Promise(n, Token(q, t))) ==> Overdue(s.engine, op.name))
  {
    hide NameOk, Choose, Remember, Token, Key, IsReady, Mapped;
    var e := s.engine;
    FindOk(e, op.name);
    if NameOk(op.name) && IsQueue(e, op.name) {
      ChooseReady(e, op.name, n, q, t);
      ChooseKeepsMapped(e, op.name);
      var (e1, token) := Choose(e, e.index[op.name].offset, op.name);
      if token.Some? {
        RememberKeepsOffset(e1.index[op.name], token.value, e1.now);
        InfoKeepsMapped(e1, op.name, Remember(e1.index[op.name], token.value, e1.now));
      }
    }
  }

  lemma GetUsesExact(s: System, op: Op, h: Promise)
    requires op.OpGet? && !Chosen(s, op, h)
    ensures InUse(Step(s, op).0, h) <==> InUse(s, h)
  {
    hide NameOk, Outstanding, Choose, Remember, Token, Key;
    var e := s.engine;
    FindOk(e, op.name);
    if NameOk(op.name) && IsQueue(e, op.name) {
      ChooseUses(e, op.name, h.token);
      var (e1, token) := Choose(e, e.index[op.name].offset, op.name);
      if token.Some? {
        RememberUses(e1.index[op.name], token.value, e1.now, h.token);
      }
      if token != Some(h.token) {
        ChooseUsesExact(e, op.name, h.token);
      }
    }
  }

  /** The stored item a get works on was ready or in use, and stays in use unless it is consumed. */
  lemma ChosenUse(s: System, op: Op, h: Promise)
    requires Mapped(s.engine) && Chosen(s, op, h) && Key(h.name, h.token) in s.engine.store
    ensures Outstanding(s.engine.index[op.name], h.token) || (!Overdue(s.engine, op.name) &&
      exists q, t :: h.token == Token(q, t) && IsReady(s.engine, op.name, q, t))
    ensures InUse(Step(s, op).0, h) <==> !Consumes(s, op, h)
  {
    hide NameOk, Outstanding, Remember, Key, Choose, Token, IsReady;
    var e := s.engine;
    FindOk(e, op.name);
    ChooseUses(e, op.name, h.token);
    ChooseKeepsKinds(e, op.name, op.name);
    var (e1, token) := Choose(e, e.index[op.name].offset, op.name);
    RememberUses(e1.index[op.name], token.value, e1.now, h.token);
    if !Overdue(e, op.name) {
      PickedIsReady(e, op.name);
    }
  }

  lemma PickedIsReady(e: Engine, name: Bytes)
    requires Mapped(e) && IsQueue(e, name) && Pick(SlotOf(e, name)).Some?
    ensures var p := Pick(SlotOf(e, name)).value;
      IsReady(e, name, p, Next(SlotOf(e, name).rings[p].sp))
  {
    hide NameOk, IndexOk, SlotNames, Offsets, Items, Next;
    var s := SlotOf(e, name);
    RealIsCount(e.store, s);
    var r := s.rings[Pick(s).value];
    PopTag(r);
    assert Tags(r)[0] in Tags(r);
  }

  lemma GetBalances(s: System, lost: Losses, op: Op)
    requires Mapped(s.engine) && Apart(s.engine) && op.OpGet? && Balanced(s, lost)
    ensures Balanced(Step(s, op).0, LostNext(s, lost, op))
  {
    hide Mapped, Step, Item, InUse, IsReady, Choose, Outstanding, Token, Key;
    var s1 := Step(s, op).0;
    forall h, p, t | Item(s1.engine, h, p, t) ensures LostNext(s, lost, op)(h) <==> !Kept(s1, h, p, t) {
      GetKeepsItems(s, op, h, p, t);
      ItemToken(s.engine, h, p, t);
      GetReady(s, op, h.name, p, t);
      assert lost(h) <==> !Kept(s, h, p, t);
      if Chosen(s, op, h) {
        ChosenKept(s, op, h, p, t);
      } else {
        GetUsesExact(s, op, h);
      }
    }
  }

  lemma ChosenKept(s: System, op: Op, h: Promise, p: nat, t: nat)
    requires Mapped(s.engine) && Apart(s.engine) && Chosen(s, op, h) && Item(s.engine, h, p, t)
    ensures Kept(s, h, p, t) && !IsReady(Step(s, op).0.engine, h.name, p, t)
    ensures InUse(Step(s, op).0, h) <==> !Consumes(s, op, h)
  {
    hide Mapped, Step, IsReady, Choose, Outstanding, Token, Key, Consumes;
    ChosenUse(s, op, h);
    GetReady(s, op, h.name, p, t);
    if !Outstanding(s.engine.index[op.name], h.token) {
      var q: nat, u: nat :| h.token == Token(q, u) && IsReady(s.engine, op.name, q, u);
      TokenInjective(p, t, q, u);
    }
  }

  // ---------------------------------------------------------------- acknowledgement and deletion

  lemma {:induction false} EraseKeeps(list: seq<Due>, d: Due, x: Due)
    requires x in list && x != d
    ensures x in EraseDue(list, d)
  {
    if list[0] != d && x in list[1..] {
      EraseKeeps(list[1..], d, x);
    }
  }

  lemma ForgetUses(info: Info, token: Bytes, other: Bytes)
    requires token in info.unacked && other != token
    ensures Outstanding(Forget(info, token), other) <==> Outstanding(info, other)
  {
    hide EraseDue;
    ForgetOutstanding(info, token, other);
    if Outstanding(info, other) && other !in info.unacked {
      var i :| 0 <= i < |info.redelivery| && info.redelivery[i].token == other;
      EraseKeeps(info.redelivery, Due(info.unacked[token], token), info.redelivery[i]);
    }
  }

  lemma AckBalances(s: System, lost: Losses, op: Op)
    requires Mapped(s.engine) && op.OpAck? && Balanced(s, lost)
    ensures Balanced(Step(s, op).0, LostNext(s, lost, op))
  {
    hide NameOk, Mapped, Forget, Outstanding, Token, Key, IsReady;
    var e, s1 := s.engine, Step(s, op).0;
    FindOk(e, op.name);
    forall h, p, t | Item(s1.engine, h, p, t) ensures LostNext(s, lost, op)(h) <==> !Kept(s1, h, p, t) {
      if IsQueue(e, op.name) && op.token in e.index[op.name].unacked {
        ForgetOffset(e.index[op.name], op.token);
        InfoKeepsMapped(e, op.name, Forget(e.index[op.name], op.token));
        RecordedOutstanding(e.index[op.name], op.token);
        if h.token != op.token {
          ForgetUses(e.index[op.name], op.token, h.token);
        }
      }
      assert lost(h) <==> !Kept(s, h, p, t);
      assert !Loses(s, op, h);
    }
  }

  lemma ForgetOffset(info: Info, token: Bytes)
    requires token in info.unacked
    ensures Forget(info, token).offset == info.offset
  {
  }

  /** Only the store shrinks. */
  lemma LessStored(e: Engine, e1: Engine, h: Promise, p: nat, t: nat)
    requires e1 == e.(store := e1.store) && e1.store.Keys <= e.store.Keys
    ensures Item(e1, h, p, t) ==> Item(e, h, p, t)
    ensures IsReady(e1, h.name, p, t) <==> IsReady(e, h.name, p, t)
  {
  }

  lemma DropBalances(s: System, lost: Losses, op: Op)
    requires SystemOk(s) && PromisesApart(s.engine, s.pending) && op.OpDrop? && Balanced(s, lost)
    ensures Balanced(Step(s, op).0, LostNext(s, lost, op))
  {
    hide NameOk, Inv, Outstanding, Token, Key, IsReady, IsQueue, Item;
    var e, s1 := s.engine, Step(s, op).0;
    forall h, p, t | Item(s1.engine, h, p, t) ensures LostNext(s, lost, op)(h) <==> !Kept(s1, h, p, t) {
      LessStored(e, s1.engine, h, p, t);
      ItemToken(s1.engine, h, p, t);
      assert lost(h) <==> !Kept(s, h, p, t);
      if op.i < |s.pending| {
        WithoutMembers(s.pending, op.i, h);
        assert NotReady(e, s.pending[op.i].name, s.pending[op.i].token);
        assert h == s.pending[op.i] ==> op.fault;
      }
    }
  }

  lemma WithoutMembers(pending: seq<Promise>, i: nat, h: Promise)
    requires i < |pending|
    ensures h in pending <==> h == pending[i] || h in Without(pending, i)
  {
    assert pending == pending[..i] + [pending[i]] + pending[i + 1..];
  }

  // ---------------------------------------------------------------- purge

  ghost predicate Frees(s: System, op: Op)
    requires op.OpPurge? && op.p <= 2 && IsQueue(s.engine, op.name)
  {
    var slot := SlotOf(s.engine, op.name);
    Real(slot) == RealItem(slot.rings[op.p].sp, slot.rings[op.p].ep)
  }

  lemma PurgeStore(s: System, op: Op)
    requires Mapped(s.engine) && op.OpPurge? && NameOk(op.name) && op.p <= 2 && IsQueue(s.engine, op.name)
    ensures Step(s, op).0.engine.store ==
      s.engine.store - (ReadyKeys(op.name, op.p, SlotOf(s.engine, op.name).rings[op.p]) - op.stuck)
  {
    hide NameOk, IndexOk, SlotNames, Offsets, PurgeKeys, ReadyKeys, Real, RealItem;
    FindOk(s.engine, op.name);
    PurgeKeysAreReady(op.name, op.p, SlotOf(s.engine, op.name).rings[op.p]);
  }

  /** What is ready after a purge: everything but the queue it frees or the ring it clears. */
  lemma PurgeReady(s: System, op: Op, n: Bytes, q: nat, t: nat)
    requires Mapped(s.engine) && op.OpPurge? && NameOk(op.name) && op.p <= 2 && IsQueue(s.engine, op.name)
    ensures IsReady(Step(s, op).0.engine, n, q, t) <==>
      IsReady(s.engine, n, q, t) && (n != op.name || (!Frees(s, op) && q != op.p))
    ensures n != op.name ==> (n in Step(s, op).0.engine.index <==> n in s.engine.index)
    ensures n != op.name ==> (IsQueue(Step(s, op).0.engine, n) <==> IsQueue(s.engine, n))
    ensures op.name in Step(s, op).0.engine.index <==> !Frees(s, op)
  {
    hide NameOk, IndexOk, SlotNames, Offsets, PurgeKeys, Real, RealItem, RingsOk, SlotOk, Tags;
    var e := s.engine;
    FindOk(e, op.name);
    assert Tags(EMPTY_RING) == [] by { NoTags(); }
    assert RingsOk(SlotOf(e, op.name)) by { RingsAre(e, op.name); }
    FreeKeepsMapped(e, op.name);
    ClearedRings(SlotOf(e, op.name), op.p);
    SetRingKeepsMapped(e, op.name, op.p, EMPTY_RING);
  }

  lemma NoTags()
    ensures Tags(EMPTY_RING) == []
  {
  }

  lemma PurgeUses(s: System, op: Op, h: Promise)
    requires op.OpPurge? && NameOk(op.name) && op.p <= 2 && IsQueue(s.engine, op.name)
    ensures InUse(Step(s, op).0, h) <==> if h.name == op.name && Frees(s, op) then h in s.pending else InUse(s, h)
  {
    hide NameOk, PurgeKeys, Real, RealItem, Outstanding;
    FindOk(s.engine, op.name);
  }

  lemma PurgedItem(s: System, op: Op, h: Promise, p: nat, t: nat)
    requires Mapped(s.engine) && op.OpPurge? && NameOk(op.name) && op.p <= 2 && IsQueue(s.engine, op.name)
    requires Item(Step(s, op).0.engine, h, p, t)
    ensures Item(s.engine, h, p, t)
    ensures h.name == op.name && p == op.p && IsReady(s.engine, h.name, p, t) ==> Key(h.name, h.token) in op.stuck
  {
    hide NameOk, Mapped, Step, Token, Real, Key;
    PurgeStore(s, op);
    PurgeReady(s, op, h.name, p, t);
  }

  lemma PurgeBalances(s: System, lost: Losses, op: Op)
    requires Mapped(s.engine) && Separate(s) && op.OpPurge? && Balanced(s, lost)
    ensures Balanced(Step(s, op).0, LostNext(s, lost, op))
  {
    hide NameOk, Mapped, Token, Key, IsReady, Item, InUse, Separate, Purge;
    var s1 := Step(s, op).0;
    FindOk(s.engine, op.name);
    if NameOk(op.name) && op.p <= 2 && IsQueue(s.engine, op.name) {
      forall h, p, t | Item(s1.engine, h, p, t) ensures LostNext(s, lost, op)(h) <==> !Kept(s1, h, p, t) {
        PurgedItem(s, op, h, p, t);
        PurgeReady(s, op, h.name, p, t);
        PurgeUses(s, op, h);
        ItemToken(s1.engine, h, p, t);
        StrandsExact(s, op, h, p, t);
        PendingInUse(s, h);
        ReadyNotUsed(s, h, p, t);
        assert lost(h) <==> !Kept(s, h, p, t);
      }
    } else {
      PurgeRefused(s, op);
    }
  }

  lemma PurgeRefused(s: System, op: Op)
    requires op.OpPurge? && !(NameOk(op.name) && op.p <= 2 && IsQueue(s.engine, op.name))
    ensures Step(s, op).0 == s && forall h :: !Loses(s, op, h)
  {
    FindOk(s.engine, op.name);
  }

  lemma StrandsExact(s: System, op: Op, h: Promise, p: nat, t: nat)
    requires op.OpPurge? && NameOk(op.name) && op.p <= 2 && IsQueue(s.engine, op.name) && h.token == Token(p, t)
    ensures h.name == op.name && Frees(s, op) ==> (Strands(s, op, h) <==> h !in s.pending)
    ensures h.name == op.name && !Frees(s, op) ==>
      (Strands(s, op, h) <==> Key(h.name, h.token) in op.stuck && p == op.p && IsReady(s.engine, op.name, p, t))
  {
    hide NameOk, Token, Key, IsReady, Real, RealItem;
    if u: nat :| IsReady(s.engine, op.name, op.p, u) && h.token == Token(op.p, u) {
      TokenInjective(p, t, op.p, u);
    }
  }

  lemma PendingInUse(s: System, h: Promise)
    ensures h in s.pending ==> InUse(s, h)
  {
  }

  /** A ready item is not in use. */
  lemma ReadyNotUsed(s: System, h: Promise, p: nat, t: nat)
    requires Separate(s) && h.token == Token(p, t)
    ensures IsReady(s.engine, h.name, p, t) ==> !InUse(s, h)
  {
    hide Outstanding, Token;
  }

  // ---------------------------------------------------------------- restart and the rest

  /** A restart keeps the ready items and loses exactly the stored items in use. */
  lemma RestartBalances(s: System, lost: Losses, op: Op)
    requires Mapped(s.engine) && Separate(s) && op.OpRestart? && Balanced(s, lost)
    ensures Balanced(Step(s, op).0, LostNext(s, lost, op))
    ensures forall h, p, t :: Item(s.engine, h, p, t) && !lost(h) ==>
              (!Kept(Step(s, op).0, h, p, t) <==> InUse(s, h))
  {
    hide NameOk, Mapped, Restart, Token, Key, Separate, Tags;
    var s1 := Step(s, op).0;
    RestartKeepsMap(s.engine);
    RestartKeepsRest(s.engine);
    forall h, p, t | Item(s.engine, h, p, t)
      ensures (lost(h) <==> !Kept(s, h, p, t)) && !InUse(s1, h) && (IsReady(s1.engine, h.name, p, t) <==> IsReady(s.engine, h.name, p, t))
      ensures IsReady(s.engine, h.name, p, t) ==> !InUse(s, h)
    {
      ReadyNotUsed(s, h, p, t);
    }
    forall h, p, t | Item(s1.engine, h, p, t) ensures Item(s.engine, h, p, t) {
    }
  }

  lemma SameIndexUse(s: System, s1: System)
    requires s1.engine.index == s.engine.index && s1.pending == s.pending
    ensures forall h :: InUse(s1, h) <==> InUse(s, h)
  {
  }

  lemma SettingsBalance(s: System, lost: Losses, op: Op)
    requires Mapped(s.engine) && (op.OpMax? || op.OpLock? || op.OpClock?) && Balanced(s, lost)
    ensures Balanced(Step(s, op).0, LostNext(s, lost, op))
  {
    hide NameOk, IndexOk, SlotNames, Offsets, Token, Key, Tags, RingsOk, SlotOk, InRange, InUse;
    var e, s1 := s.engine, Step(s, op).0;
    assert forall h :: InUse(s1, h) <==> InUse(s, h) by { SameIndexUse(s, s1); }
    if !op.OpClock? {
      FindOk(e, op.name);
      if IsQueue(e, op.name) {
        SettingsKeepSlots(e, op.name, SlotOf(e, op.name).(max := if op.OpMax? then op.max else SlotOf(e, op.name).max,
                                                          lock := if op.OpLock? then op.lock else SlotOf(e, op.name).lock));
      }
    }
    forall h, p, t | Item(s1.engine, h, p, t) ensures LostNext(s, lost, op)(h) <==> !Kept(s1, h, p, t) {
      assert Item(s.engine, h, p, t);
      assert lost(h) <==> !Kept(s, h, p, t);
    }
  }

  /** Every operation loses exactly the items LostNext says. */
  lemma StepBalances(s: System, lost: Losses, op: Op)
    requires SystemOk(s) && Separate(s) && Balanced(s, lost)
    ensures Balanced(Step(s, op).0, LostNext(s, lost, op))
  {
    hide Inv, Apart, PromisesApart, Balanced, Step, LostNext;
    MappedOf(s.engine);
    match op
    case OpPut(_, _, _, _) => PutBalances(s, lost, op);
    case OpGet(_, _, _, _, _) => GetBalances(s, lost, op);
    case OpAck(_, _) => AckBalances(s, lost, op);
    case OpDrop(_, _) => DropBalances(s, lost, op);
    case OpPurge(_, _, _) => PurgeBalances(s, lost, op);
    case OpRestart => RestartBalances(s, lost, op);
    case _ => SettingsBalance(s, lost, op);
  }

  /** After every fresh run a stored item, one that was put and neither purged nor deleted, is
      ready, in use, or lost by one of: a get that fails or is not answered, a deletion that
      fails, a purge of its queue, a restart while it was in use. */
  lemma {:induction false} RunBalances(s: System, lost: Losses, ops: seq<Op>)
    requires SystemOk(s) && Separate(s) && Balanced(s, lost) && FreshRun(s, ops)
    ensures Balanced(Run(s, ops).0, LostAfter(s, lost, ops))
    decreases |ops|
  {
    hide SystemOk, Separate, Balanced, Step, FreshPut, LostNext;
    if ops != [] {
      StepSeparates(s, ops[0]);
      StepKeepsOk(s, ops[0]);
      StepBalances(s, lost, ops[0]);
      RunBalances(Step(s, ops[0]).0, LostNext(s, lost, ops[0]), ops[1..]);
    }
  }

  /** A lost item is never handed out again. */
  lemma LostIsNotDelivered(s: System, lost: Losses, op: Op, h: Promise, p: nat, t: nat)
    requires SystemOk(s) && Separate(s) && Balanced(s, lost) && Item(s.engine, h, p, t) && lost(h)
    ensures !Chosen(s, op, h)
  {
    hide Inv, PromisesApart, Token, Key, IsReady, Choose;
    MappedOf(s.engine);
    if Chosen(s, op, h) {
      ChosenKept(s, op, h, p, t);
      assert false;
    }
  }

  // ---------------------------------------------------------------- nothing is lost

  ghost predicate AllKept(s: System) {
    forall h, p, t :: Item(s.engine, h, p, t) ==> Kept(s, h, p, t)
  }

  /** The storage answers, the worker gets its reply, no queue is purged while an item of it is
      in use, and the server does not restart. */
  ghost predicate Careful(s: System, op: Op) {
    match op
    case OpGet(_, _, isAck, fault, replied) => !fault && (isAck ==> replied)
    case OpDrop(_, fault) => !fault
    case OpPurge(name, _, stuck) => stuck == {} && forall h :: InUse(s, h) ==> h.name != name
    case OpRestart => false
    case _ => true
  }

  ghost predicate CarefulRun(s: System, ops: seq<Op>)
    decreases |ops|
  {
    ops == [] || (Careful(s, ops[0]) && CarefulRun(Step(s, ops[0]).0, ops[1..]))
  }

  /** A purge frees the queue when the purged priority holds its last items. */
  lemma FreedRings(s: System, op: Op, q: nat, t: nat)
    requires Mapped(s.engine) && op.OpPurge? && op.p <= 2 && IsQueue(s.engine, op.name) && Frees(s, op)
    ensures IsReady(s.engine, op.name, q, t) ==> q == op.p
  {
    hide NameOk, IndexOk, SlotNames, Offsets, Items;
    RealIsCount(s.engine.store, SlotOf(s.engine, op.name));
  }

  lemma CarefulLosesNone(s: System, op: Op, h: Promise, p: nat, t: nat)
    requires Mapped(s.engine) && AllKept(s) && Careful(s, op) && Item(Step(s, op).0.engine, h, p, t)
    ensures !Loses(s, op, h)
  {
    hide Mapped, Step, Item, InUse, IsReady, Token, Key, NameOk, Choose;
    if Strands(s, op, h) {
      PurgedItem(s, op, h, p, t);
      ItemToken(s.engine, h, p, t);
      StrandsExact(s, op, h, p, t);
      assert Kept(s, h, p, t);
      if Frees(s, op) {
        FreedRings(s, op, p, t);
      }
    }
  }

  /** Every fresh run that is careful keeps each item ready or in use until it is purged or
      deleted. */
  lemma {:induction false} CarefulRunLosesNone(s: System, ops: seq<Op>)
    requires SystemOk(s) && Separate(s) && AllKept(s) && FreshRun(s, ops) && CarefulRun(s, ops)
    ensures AllKept(Run(s, ops).0)
    decreases |ops|
  {
    hide SystemOk, Separate, Step, FreshPut, Item, Kept, Careful, Loses, Replaces;
    if ops != [] {
      StepSeparates(s, ops[0]);
      StepKeepsOk(s, ops[0]);
      CarefulStep(s, ops[0]);
      CarefulRunLosesNone(Step(s, ops[0]).0, ops[1..]);
    }
  }

  lemma CarefulStep(s: System, op: Op)
    requires SystemOk(s) && Separate(s) && AllKept(s) && Careful(s, op)
    ensures AllKept(Step(s, op).0)
  {
    hide Inv, Separate, Step, Item, Kept, Careful, Loses, Replaces;
    MappedOf(s.engine);
    StepBalances(s, h => false, op);
    forall h, p, t | Item(Step(s, op).0.engine, h, p, t) ensures Kept(Step(s, op).0, h, p, t) {
      CarefulLosesNone(s, op, h, p, t);
    }
  }

  lemma FreshKept(n: nat, timeout: nat)
    ensures Separate(Fresh(n, timeout)) && AllKept(Fresh(n, timeout))
  {
  }
}
