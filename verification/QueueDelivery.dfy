/** What a get hands out: which token, and the item that was put under it. */
module QueueDelivery {
  import opened Bytes
  import opened QueueRing
  import opened QueueKeys
  import opened SlotIndex
  import opened QueueModel
  import opened QueueRefinement
  import opened QueueRuns
  import opened QueuePurge
  import opened QueueSystem
  import opened QueueTheorems
  import opened QueueSeparation
  import opened QueueConservation

  // ---------------------------------------------------------------- answers

  /** With an overdue item the get answers with the token at the front of the multimap and what
      is stored under it, whether the server or the worker acknowledges. */
  lemma RedeliveryAnswers(e: Engine, name: Bytes, worker: Bytes, isAck: bool, fault: bool)
    requires NameOk(name) && 4 < |worker| <= 32 && IsQueue(e, name) && Overdue(e, name)
    ensures var token := e.index[name].redelivery[0].token; var key := Key(name, token);
      Get(e, name, worker, isAck, fault).1 ==
      if fault then Delivery(StorageFault, [], [])
      else if key in e.store then Delivery(Ok, token, e.store[key])
      else Delivery(Missing, [], [])
  {
    hide NameOk, Key, Remember;
  }

  /** Otherwise it answers with the token of the oldest ready item of the highest priority that
      has one, and with that item. */
  lemma ReadyAnswers(e: Engine, name: Bytes, worker: Bytes, isAck: bool, fault: bool)
    requires Inv(e) && NameOk(name) && 4 < |worker| <= 32 && IsQueue(e, name) && !Overdue(e, name)
    ensures forall p :: 0 <= p < 3 ==> InRange(SlotOf(e, name).rings[p])
    ensures var rings := SlotOf(e, name).rings;
      Get(e, name, worker, isAck, fault).1 ==
      if Size(rings[0]) + Size(rings[1]) + Size(rings[2]) == 0 then Delivery(Missing, [], [])
      else if fault then Delivery(StorageFault, [], [])
      else
        var p := if Size(rings[2]) > 0 then 2 else if Size(rings[1]) > 0 then 1 else 0;
        var token := Token(p, Tags(rings[p])[0]);
        Delivery(Ok, token, Lookup(e.store, Key(name, token)))
  {
    hide NameOk, Key, Remember, Token, Next, Mapped, FifoOf;
    MappedOf(e);
    RingsAre(e, name);
    RealIsCount(e.store, SlotOf(e, name));
    FindOk(e, name);
    var rings := SlotOf(e, name).rings;
    var pick := Pick(SlotOf(e, name));
    if pick.Some? {
      var r := rings[pick.value];
      PopTag(r);
      assert Tags(r)[0] in Tags(r);
      ReadyStored(e, name, pick.value, Tags(r)[0]);
    }
  }

  lemma ReadyStored(e: Engine, name: Bytes, p: nat, t: nat)
    requires Inv(e) && IsReady(e, name, p, t)
    ensures Key(name, Token(p, t)) in e.store
  {
    assert ItemKey(name, p, t) in e.store;
  }

  /** An acknowledgement succeeds exactly for a token the queue has recorded as unacknowledged. */
  lemma AckAnswers(e: Engine, name: Bytes, token: Bytes)
    ensures var (e1, code) := Unrecord(e, name, token);
      && (code == Ok <==> NameOk(name) && NameOk(token) && IsQueue(e, name) && token in e.index[name].unacked)
      && (code == Rejected <==> !NameOk(name) || !NameOk(token))
      && (code != Ok && code != Rejected ==> code == NoQueue)
      && (code == Ok ==> token !in e1.index[name].unacked && e1.index[name].unacked == e.index[name].unacked - {token})
      && (code != Ok ==> e1 == e)
  {
    hide NameOk, EraseDue;
    FindOk(e, name);
  }

  /** The late deletion answers Ok exactly when it deletes the item. */
  lemma DropAnswers(e: Engine, name: Bytes, token: Bytes, fault: bool)
    ensures var (e1, code) := Drop(e, name, token, fault);
      && (code == Ok <==> !fault && Key(name, token) in e.store)
      && (code == Missing <==> !fault && Key(name, token) !in e.store)
      && (Key(name, token) in e1.store <==> Key(name, token) in e.store && code != Ok)
  {
    hide Key;
  }

  // ---------------------------------------------------------------- the item under a token

  /** The item of the last put that answered Ok and took the tag of each token. */
  type Writes = Promise -> Option<Bytes>

  ghost function Written(s: System, w: Writes, op: Op): Writes {
    h => if Replaces(s, op, h) then Some(op.item) else w(h)
  }

  ghost function WrittenAfter(s: System, w: Writes, ops: seq<Op>): Writes
    decreases |ops|
  {
    if ops == [] then w else WrittenAfter(Step(s, ops[0]).0, Written(s, w, ops[0]), ops[1..])
  }

  /** What is stored under a token is what was last put there. */
  ghost predicate Recorded(e: Engine, w: Writes) {
    forall h: Promise :: NameOk(h.name) && Key(h.name, h.token) in e.store ==> w(h) == Some(e.store[Key(h.name, h.token)])
  }

  lemma PutWrites(s: System, w: Writes, op: Op)
    requires Mapped(s.engine) && op.OpPut? && Recorded(s.engine, w)
    ensures Recorded(Step(s, op).0.engine, Written(s, w, op))
  {
    hide NameOk, Mapped, FindOrCreate, Full, Key, Token, Next;
    var e, s1 := s.engine, Step(s, op).0;
    if NameOk(op.name) && op.p <= 2 {
      OpenStore(e, op.name);
      NextTagOpened(e, op.name, op.p);
      OpenKeepsMapped(e, op.name);
    }
    forall h: Promise | NameOk(h.name) && Key(h.name, h.token) in s1.engine.store
      ensures Written(s, w, op)(h) == Some(s1.engine.store[Key(h.name, h.token)])
    {
      if op.p < 3 && NameOk(op.name) {
        var token := Token(op.p, NextTag(e, op.name, op.p));
        if Key(h.name, h.token) == Key(op.name, token) { KeyInjective(h.name, h.token, op.name, token); }
      }
    }
  }

  lemma OpenStore(e: Engine, name: Bytes)
    ensures FindOrCreate(e, name).0.store == e.store
  {
  }

  /** No other operation writes a key. */
  lemma OthersWriteNothing(s: System, op: Op, key: Bytes)
    requires !op.OpPut? && key in Step(s, op).0.engine.store
    ensures key in s.engine.store && Step(s, op).0.engine.store[key] == s.engine.store[key]
  {
    hide NameOk, PurgeKeys, Real, RealItem, Rebuild, SlotNames, Token, Key, Remember, EraseDue, Pick, Next;
  }

  lemma StepWrites(s: System, w: Writes, op: Op)
    requires Mapped(s.engine) && Recorded(s.engine, w)
    ensures Recorded(Step(s, op).0.engine, Written(s, w, op))
  {
    hide Mapped, Step, NameOk, Key;
    if op.OpPut? {
      PutWrites(s, w, op);
    } else {
      forall h: Promise | NameOk(h.name) && Key(h.name, h.token) in Step(s, op).0.engine.store
        ensures Written(s, w, op)(h) == Some(Step(s, op).0.engine.store[Key(h.name, h.token)])
      {
        OthersWriteNothing(s, op, Key(h.name, h.token));
      }
    }
  }

  /** After every run, whatever happens to tags, each stored item is the one last put under its
      token. */
  lemma {:induction false} RunWrites(s: System, w: Writes, ops: seq<Op>)
    requires Mapped(s.engine) && Recorded(s.engine, w)
    ensures Mapped(Run(s, ops).0.engine) && Recorded(Run(s, ops).0.engine, WrittenAfter(s, w, ops))
    decreases |ops|
  {
    hide Mapped, Step, Recorded, Written;
    if ops != [] {
      StepWrites(s, w, ops[0]);
      StepKeepsMapped(s, ops[0]);
      RunWrites(Step(s, ops[0]).0, Written(s, w, ops[0]), ops[1..]);
    }
  }

  /** After every run from a server without items, a get that answers Ok, for the first time or
      again, hands out the item of the last put that took the tag of the token it chose. */
  lemma DeliveredIsLastPut(s: System, w: Writes, ops: seq<Op>, op: Op)
    requires Mapped(s.engine) && Recorded(s.engine, w) && op.OpGet?
    ensures var s1 := Run(s, ops).0; var out := Step(s1, op).1;
      out.code == Ok ==>
        exists h :: Chosen(s1, op, h) && WrittenAfter(s, w, ops)(h) == Some(out.item)
  {
    hide Mapped, Run, WrittenAfter, NameOk, Key, Choose, Remember;
    RunWrites(s, w, ops);
    var s1 := Run(s, ops).0;
    var e := s1.engine;
    FindOk(e, op.name);
    if Step(s1, op).1.code == Ok {
      var token := Choose(e, e.index[op.name].offset, op.name).1;
      ChooseKeepsKinds(e, op.name, op.name);
      assert Chosen(s1, op, Promise(op.name, token.value));
    }
  }

  lemma FreshRecorded(n: nat, timeout: nat)
    ensures Recorded(Fresh(n, timeout).engine, h => None)
  {
  }
}
