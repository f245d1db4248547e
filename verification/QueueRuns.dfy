/** Each queue operation refines its counterpart on first-in-first-out sequences, and so do
    whole runs. */
module QueueRuns {
  import opened Bytes
  import opened QueueRing
  import opened QueueKeys
  import opened SlotIndex
  import opened QueueModel
  import opened QueueRefinement

  // ---------------------------------------------------------------- put

  /** A new key differs from every key of a ready item. */
  lemma NewKeyApart(e: Engine, name: Bytes, p: nat)
    requires Mapped(e) && IsQueue(e, name) && p < 3 && Size(SlotOf(e, name).rings[p]) + 1 < CYCLE
    ensures forall n, q, t :: IsReady(e, n, q, t) ==>
              ItemKey(n, q, t) != ItemKey(name, p, Next(SlotOf(e, name).rings[p].ep))
  {
    hide ItemKey, Tags, NameOk, IndexOk, SlotNames, Offsets, Next;
    var r := SlotOf(e, name).rings[p];
    PushTag(r);
    forall n, q, t | IsReady(e, n, q, t) ensures ItemKey(n, q, t) != ItemKey(name, p, Next(r.ep)) {
      if ItemKey(n, q, t) == ItemKey(name, p, Next(r.ep)) {
        ItemKeyInjective(n, q, t, name, p, Next(r.ep));
      }
    }
  }

  lemma PushItems(store: map<Bytes, Bytes>, name: Bytes, p: nat, r: Ring, item: Bytes)
    requires InRange(r) && Size(r) + 1 < CYCLE && NameOk(name)
    ensures var tag := Next(r.ep); var s := r.(ep := tag);
      && InRange(s)
      && Items(store[ItemKey(name, p, tag) := item], name, p, s) == Items(store, name, p, r) + [item]
  {
    hide ItemKey, NameOk, Next;
    PushTag(r);
    var tag := Next(r.ep);
    var s := r.(ep := tag);
    var store' := store[ItemKey(name, p, tag) := item];
    forall k | 0 <= k < Size(r) ensures Items(store', name, p, s)[k] == Items(store, name, p, r)[k] {
      assert Tags(s)[k] == Tags(r)[k] && Tags(r)[k] in Tags(r);
      if ItemKey(name, p, Tags(r)[k]) == ItemKey(name, p, tag) {
        ItemKeyInjective(name, p, Tags(r)[k], name, p, tag);
      }
    }
    assert Tags(s)[Size(r)] == tag;
  }

  lemma PushRefines(e: Engine, name: Bytes, item: Bytes, p: nat)
    requires Inv(e) && IsQueue(e, name) && p < 3 && item != []
    requires !Full(SlotOf(e, name))
    ensures var e1 := Push(e, e.index[name].offset, name, item, p); var f := ViewOf(e, name);
      && Inv(e1)
      && Abs(e1) == Abs(e).(queues := Abs(e).queues[name := f.(ready := f.ready[p := f.ready[p] + [item]])])
  {
    hide ItemKey, Items, NameOk, IndexOk, SlotNames, Offsets, Tags, Next;
    var s := SlotOf(e, name);
    RealIsCount(e.store, s);
    var r := s.rings[p];
    var tag := Next(r.ep);
    var key := ItemKey(name, p, tag);
    var store' := e.store[key := item];
    PushTag(r);
    NewKeyApart(e, name, p);
    PushItems(e.store, name, p, r, item);
    SetRingRefines(e, name, p, r.(ep := tag), store');
    var e1 := Push(e, e.index[name].offset, name, item, p);
    forall n, q, t | IsReady(e1, n, q, t)
      ensures ItemKey(n, q, t) in e1.store && e1.store[ItemKey(n, q, t)] != []
    {
      if n == name && q == p && t == tag {
      } else {
        assert IsReady(e, n, q, t);
      }
    }
  }

  /** hustmq_put refines appending to the queue's priority. */
  lemma PutRefines(e: Engine, name: Bytes, item: Bytes, p: nat, fault: bool)
    requires Inv(e)
    ensures var (e1, code) := Put(e, name, item, p, fault); var (q1, spec) := SpecPut(Abs(e), name, item, p, fault);
      Inv(e1) && Abs(e1) == q1 && code == spec
  {
    hide NameOk, Push, Inv, Full, FifoFull, FindOrCreate, Opened, FifoOf, SlotOk, Next, IndexOk, SlotNames, Offsets;
    if NameOk(name) && item != [] && p <= 2 && !e.over {
      OpenRefines(e, name);
      var (e1, at) := FindOrCreate(e, name);
      if at.Some? {
        InvParts(e1, name);
        RealIsCount(e1.store, SlotOf(e1, name));
        if !Full(SlotOf(e1, name)) && !fault {
          PushRefines(e1, name, item, p);
        }
      }
    }
  }

  lemma InvParts(e: Engine, name: Bytes)
    requires Inv(e) && IsQueue(e, name)
    ensures Mapped(e) && e.index[name].offset < |e.slots| && RingsOk(SlotOf(e, name)) && SlotOf(e, name).name == name
    ensures name in Abs(e).queues && |Abs(e).queues[name].ready| == 3
    ensures Abs(e).queues[name] == ViewOf(e, name) == FifoOf(e.store, SlotOf(e, name))
    ensures ViewOf(e, name).lock == SlotOf(e, name).lock && ViewOf(e, name).max == SlotOf(e, name).max
  {
  }

  // ---------------------------------------------------------------- get

  lemma PopItems(store: map<Bytes, Bytes>, name: Bytes, p: nat, r: Ring)
    requires InRange(r) && Size(r) > 0
    ensures var s := r.(sp := Next(r.sp));
      && InRange(s) && Size(s) == Size(r) - 1
      && Items(store, name, p, s) == Items(store, name, p, r)[1..]
      && Items(store, name, p, r)[0] == Lookup(store, ItemKey(name, p, Next(r.sp)))
  {
  }

  /** Moving sp takes the oldest item out of the ready ones. */
  lemma PopRefines(e: Engine, name: Bytes, p: nat)
    requires Inv(e) && IsQueue(e, name) && p < 3 && Size(SlotOf(e, name).rings[p]) > 0
    ensures var r := SlotOf(e, name).rings[p];
      var e1 := SetRing(e, e.index[name].offset, p, r.(sp := Next(r.sp))); var f := ViewOf(e, name);
      && Inv(e1) && e1.index == e.index
      && Abs(e1) == Abs(e).(queues := Abs(e).queues[name := f.(ready := f.ready[p := f.ready[p][1..]])])
      && !IsReady(e1, name, p, Next(r.sp))
      && ItemKey(name, p, Next(r.sp)) in e.store
      && f.ready[p] != [] && e.store[ItemKey(name, p, Next(r.sp))] == f.ready[p][0]
  {
    hide ItemKey, Items, NameOk, IndexOk, SlotNames, Offsets, Next, Tags;
    var s := SlotOf(e, name);
    var r := s.rings[p];
    PopTag(r);
    PopItems(e.store, name, p, r);
    SetRingRefines(e, name, p, r.(sp := Next(r.sp)), e.store);
    var e1 := SetRing(e, e.index[name].offset, p, r.(sp := Next(r.sp)));
    assert e1 == e1.(store := e.store);
    assert Next(r.sp) in Tags(r);
    assert IsReady(e, name, p, Next(r.sp));
    forall n, q, t | IsReady(e1, n, q, t) ensures IsReady(e, n, q, t) {
      if n == name && q == p { assert t in Tags(r)[1..]; }
    }
  }

  /** The token is not the token of a ready item of the queue. */
  ghost predicate NotReady(e: Engine, name: Bytes, token: Bytes) {
    forall q, t :: IsReady(e, name, q, t) ==> Token(q, t) != token
  }

  lemma ChooseRefines(e: Engine, name: Bytes)
    requires Inv(e) && IsQueue(e, name)
    ensures var (e1, token) := Choose(e, e.index[name].offset, name); var f := ViewOf(e, name);
      && Inv(e1) && IsQueue(e1, name) && e1.store == e.store
      && (token.Some? && !Overdue(e, name) ==> NotReady(e1, name, token.value))
      && if Overdue(e, name) then token == Some(e.index[name].redelivery[0].token) && Abs(e1) == Abs(e)
         else match Highest(f)
           case None => token.None? && e1 == e
           case Some(p) =>
             && token.Some?
             && Abs(e1) == Abs(e).(queues := Abs(e).queues[name := f.(ready := f.ready[p := f.ready[p][1..]])])
             && Key(name, token.value) in e.store && e.store[Key(name, token.value)] == f.ready[p][0]
  {
    hide Token, Items, NameOk, IndexOk, SlotNames, Offsets, Next, Tags, Key;
    var s := SlotOf(e, name);
    RealIsCount(e.store, s);
    var (e1, token) := Choose(e, e.index[name].offset, name);
    if Overdue(e, name) {
      var info := e.index[name];
      InfoRefines(e, name, info.(redelivery := info.redelivery[1..]));
    } else if Highest(ViewOf(e, name)).Some? {
      var p := Highest(ViewOf(e, name)).value;
      PopRefines(e, name, p);
      forall q, t | IsReady(e1, name, q, t) ensures Token(q, t) != token.value {
        if Token(q, t) == token.value { TokenInjective(q, t, p, Next(s.rings[p].sp)); }
      }
    }
  }

  lemma InfoKeepsMapped(e: Engine, name: Bytes, info: Info)
    requires Mapped(e) && IsQueue(e, name) && info.offset == e.index[name].offset
    ensures var e1 := e.(index := e.index[name := info]);
      && Mapped(e1)
      && (forall n, q, t :: IsReady(e1, n, q, t) <==> IsReady(e, n, q, t))
      && (forall n :: IsQueue(e, n) ==> ViewOf(e1, n) == ViewOf(e, n))
  {
    hide NameOk, IndexOk, SlotNames, Tags, FifoOf, RingsOk;
    var e1 := e.(index := e.index[name := info]);
    assert Offsets(e1.index) == Offsets(e.index);
  }

  /** Only the bookkeeping of unacknowledged items changes. */
  lemma InfoRefines(e: Engine, name: Bytes, info: Info)
    requires Inv(e) && IsQueue(e, name) && info.offset == e.index[name].offset
    ensures var e1 := e.(index := e.index[name := info]);
      Inv(e1) && Abs(e1) == Abs(e) && forall n, q, t :: IsReady(e1, n, q, t) <==> IsReady(e, n, q, t)
  {
    hide ItemKey, Mapped, ViewOf, IsReady;
    var e1 := e.(index := e.index[name := info]);
    InfoKeepsMapped(e, name, info);
    assert Abs(e1).queues == Abs(e).queues;
  }

  lemma RememberKeepsOffset(info: Info, token: Bytes, now: nat)
    ensures Remember(info, token, now).offset == info.offset
  {
  }

  /** The keys of other tokens are not touched. */
  lemma DropKeepsViews(e: Engine, name: Bytes, token: Bytes)
    requires Mapped(e) && NameOk(name) && NotReady(e, name, token)
    ensures var e1 := e.(store := e.store - {Key(name, token)});
      && Mapped(e1)
      && (forall n, q, t :: IsReady(e, n, q, t) ==> ItemKey(n, q, t) != Key(name, token))
      && (forall n :: IsQueue(e, n) ==> ViewOf(e1, n) == ViewOf(e, n))
  {
    hide Token, NameOk, IndexOk, SlotNames, Tags, FifoOf, RingsOk, Offsets, Key;
    var e1 := e.(store := e.store - {Key(name, token)});
    MappedIgnoresStore(e, e1.store);
    forall n, q, t | IsReady(e, n, q, t) ensures ItemKey(n, q, t) != Key(name, token) {
      if ItemKey(n, q, t) == Key(name, token) { KeyInjective(n, Token(q, t), name, token); }
    }
    forall n | IsQueue(e, n) ensures ViewOf(e1, n) == ViewOf(e, n) {
      SameFifo(e, e1.store, n);
    }
  }

  /** Deleting the key of a token that is not ready leaves all queues alone. */
  lemma DropRefines(e: Engine, name: Bytes, token: Bytes)
    requires Inv(e) && NameOk(name) && NotReady(e, name, token)
    ensures var e1 := e.(store := e.store - {Key(name, token)});
      Inv(e1) && Abs(e1) == Abs(e)
  {
    hide Token, NameOk, Mapped, ViewOf, Key;
    var e1 := e.(store := e.store - {Key(name, token)});
    DropKeepsViews(e, name, token);
    assert Abs(e1).queues == Abs(e).queues;
    forall n, q, t | IsReady(e1, n, q, t) ensures IsReady(e, n, q, t) {
    }
  }

  /** hustmq_get: without an overdue item it takes the head of the highest non-empty
      priority; with one it redelivers and leaves the ready items alone. */
  lemma GetRefines(e: Engine, name: Bytes, worker: Bytes, isAck: bool, fault: bool)
    requires Inv(e)
    ensures var (e1, d) := Get(e, name, worker, isAck, fault);
      && Inv(e1)
      && (d.code.Ok? ==> NameOk(name))
      && (d.code.Ok? ==> Key(name, d.token) in e.store && d.item == e.store[Key(name, d.token)])
      && if NameOk(name) && IsQueue(e, name) && Overdue(e, name) then
           Abs(e1) == Abs(e) && (d.code.Ok? ==> d.token == e.index[name].redelivery[0].token)
         else var (q1, code, item) := SpecTake(Abs(e), name, worker, fault);
           && Abs(e1) == q1 && d.code == code && (code.Ok? ==> d.item == item && NotReady(e1, name, d.token))
  {
    hide NameOk, Token, Key, Inv, Choose, FifoOf, SlotOk, IndexOk, SlotNames, Offsets, Remember, Highest, NotReady;
    assert Mapped(e) by { MappedOf(e); }
    FindOk(e, name);
    if NameOk(name) && 4 < |worker| <= 32 && IsQueue(e, name) {
      InvParts(e, name);
      ChooseRefines(e, name);
      var (e1, token) := Choose(e, e.index[name].offset, name);
      if token.Some? && Key(name, token.value) in e1.store && !isAck {
        var info := Remember(e1.index[name], token.value, e1.now);
        RememberKeepsOffset(e1.index[name], token.value, e1.now);
        InfoRefines(e1, name, info);
        if !Overdue(e, name) { NotReadyIgnoresInfo(e1, name, token.value, info); }
      }
    }
  }

  lemma NotReadyIgnoresInfo(e: Engine, name: Bytes, token: Bytes, info: Info)
    requires NotReady(e, name, token) && IsQueue(e, name) && info.offset == e.index[name].offset
    ensures NotReady(e.(index := e.index[name := info]), name, token)
  {
  }

  // ---------------------------------------------------------------- ack

  /** The bookkeeping of hustmq_ack leaves the ready items of all queues alone. */
  lemma UnrecordRefines(e: Engine, name: Bytes, token: Bytes)
    requires Inv(e)
    ensures var (e1, code) := Unrecord(e, name, token);
      Inv(e1) && Abs(e1) == Abs(e) && e1.store == e.store && (code.Ok? ==> NameOk(name))
  {
    hide NameOk, Inv, Mapped, EraseDue;
    MappedOf(e);
    FindOk(e, name);
    if NameOk(name) && NameOk(token) && IsQueue(e, name) && token in e.index[name].unacked {
      InfoRefines(e, name, Forget(e.index[name], token));
    }
  }

  lemma ReadyItemGone(e: Engine, name: Bytes, p: nat, t: nat)
    requires Mapped(e) && Stored(e) && IsReady(e, name, p, t)
    ensures var store' := e.store - {ItemKey(name, p, t)}; var r := SlotOf(e, name).rings[p];
      Items(store', name, p, r) != Items(e.store, name, p, r)
  {
    hide NameOk, IndexOk, SlotNames, Offsets, ItemKey;
    var store' := e.store - {ItemKey(name, p, t)};
    var r := SlotOf(e, name).rings[p];
    var k :| 0 <= k < |Tags(r)| && Tags(r)[k] == t;
    assert Items(store', name, p, r)[k] == [];
    assert Items(e.store, name, p, r)[k] != [];
  }

  /** Deleting the key of a token leaves the queues alone exactly when no ready item has that
      token. */
  lemma DeleteExact(e: Engine, name: Bytes, token: Bytes)
    requires Inv(e) && NameOk(name)
    ensures var e1 := e.(store := e.store - {Key(name, token)});
      Mapped(e1) && (Abs(e1) == Abs(e) <==> NotReady(e, name, token)) && (NotReady(e, name, token) ==> Inv(e1))
  {
    hide Token, NameOk, IndexOk, SlotNames, Offsets, Key, Tags, Items;
    var e1 := e.(store := e.store - {Key(name, token)});
    MappedIgnoresStore(e, e1.store);
    if NotReady(e, name, token) {
      DropRefines(e, name, token);
    } else {
      var q, t :| IsReady(e, name, q, t) && Token(q, t) == token;
      ReadyItemGone(e, name, q, t);
      assert Abs(e1).queues[name] != Abs(e).queues[name];
    }
  }

  /** The deletion of an acknowledged item is invisible exactly when it fails or its token is
      not that of a ready item. */
  lemma DropExact(e: Engine, name: Bytes, token: Bytes, fault: bool)
    requires Inv(e) && NameOk(name)
    ensures var e1 := Drop(e, name, token, fault).0;
      && Mapped(e1) && (Abs(e1) == Abs(e) <==> fault || NotReady(e, name, token))
      && (fault || NotReady(e, name, token) ==> Inv(e1))
  {
    hide Inv, Key, NotReady, NameOk, Abs;
    MappedOf(e);
    DeleteExact(e, name, token);
    assert Key(name, token) !in e.store ==> e.(store := e.store - {Key(name, token)}) == e by {
      assert Key(name, token) !in e.store ==> e.store - {Key(name, token)} == e.store;
    }
  }
}
