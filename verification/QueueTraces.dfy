/** Two runs of the queue server that leave the behaviour of first-in-first-out queues. */
module QueueTraces {
  import opened Bytes
  import opened Decimal
  import opened QueueRing
  import opened QueueKeys
  import opened SlotIndex
  import opened QueueModel
  import opened QueueSystem

  /** A server with one slot, not in use. */
  function Idle(store: map<Bytes, Bytes>, timeout: nat): Engine {
    Engine([FREE_SLOT], map[], store, 0, false, timeout)
  }

  /** A server with one queue, created at second 0, whose items all have priority 0. */
  function Single(name: Bytes, ring: Ring, info: Info, store: map<Bytes, Bytes>, now: nat, timeout: nat): Engine {
    Engine([FREE_SLOT.(flag := true, kind := QUEUE_TB, timeout := timeout % 256, name := name,
                       rings := [ring, EMPTY_RING, EMPTY_RING])],
           map[name := info], store, now, false, timeout)
  }

  const NO_INFO: Info := Info(0, map[], [])

  lemma FirstPut(name: Bytes, item: Bytes, store: map<Bytes, Bytes>, timeout: nat)
    requires NameOk(name) && item != []
    ensures Put(Idle(store, timeout), name, item, 0, false) ==
            (Single(name, Ring(0, 1), NO_INFO, store[ItemKey(name, 0, 1) := item], 0, timeout), Ok)
  {
    hide NameOk, ItemKey;
    var e := Idle(store, timeout);
    assert FindName(SlotNames(e.slots), name, 0) == 1;
    assert SlotNames(e.slots)[0] == None;
    assert FirstFree(SlotNames(e.slots), 0) == 0;
    var e1 := Single(name, EMPTY_RING, NO_INFO, store, 0, timeout);
    assert e.slots[0 := NewSlot(e, name)] == e1.slots;
    assert FindOrCreate(e, name) == (e1, Some(0));
    assert EMPTY_RINGS[0 := Ring(0, 1)] == [Ring(0, 1), EMPTY_RING, EMPTY_RING];
    assert Push(e1, 0, name, item, 0).slots ==
      Single(name, Ring(0, 1), NO_INFO, store[ItemKey(name, 0, 1) := item], 0, timeout).slots;
  }

  /** A get that takes the only ready item. */
  lemma OnlyGet(name: Bytes, worker: Bytes, store: map<Bytes, Bytes>, timeout: nat, isAck: bool)
    requires NameOk(name) && 4 < |worker| <= 32
    ensures var key := ItemKey(name, 0, 1);
      var (e1, d) := Get(Single(name, Ring(0, 1), NO_INFO, store, 0, timeout), name, worker, isAck, false);
      && (key in store ==> d == Delivery(Ok, Token(0, 1), store[key]))
      && (key !in store ==> d == Failed(Missing))
      && (key in store ==>
            var info := if isAck then NO_INFO else Info(0, map[Token(0, 1) := 0], [Due(0, Token(0, 1))]);
            e1 == Single(name, Ring(1, 1), info, store, 0, timeout))
  {
    hide NameOk, Token, Key;
    var e := Single(name, Ring(0, 1), NO_INFO, store, 0, timeout);
    assert Choose(e, 0, name) == (Single(name, Ring(1, 1), NO_INFO, store, 0, timeout), Some(Token(0, 1))) by {
      assert Pick(e.slots[0]) == Some(0);
      assert e.slots[0].rings[0 := Ring(1, 1)] == [Ring(1, 1), EMPTY_RING, EMPTY_RING];
      assert SetRing(e, 0, 0, Ring(1, 1)).slots == Single(name, Ring(1, 1), NO_INFO, store, 0, timeout).slots;
    }
    assert Remember(NO_INFO, Token(0, 1), 0) == Info(0, map[Token(0, 1) := 0], [Due(0, Token(0, 1))]);
  }

  /** A purge of a queue without ready items frees its slot and deletes nothing. */
  lemma EmptyPurge(name: Bytes, store: map<Bytes, Bytes>, timeout: nat)
    requires NameOk(name)
    ensures Purge(Single(name, Ring(1, 1), NO_INFO, store, 0, timeout), name, 0, {}) == (Idle(store, timeout), Ok)
  {
    hide NameOk, ItemKey;
    var e := Single(name, Ring(1, 1), NO_INFO, store, 0, timeout);
    assert PurgeKeys(name, 0, Ring(1, 1)) == {};
    assert e.store - ({} - {}) == e.store;
    assert e.index - {name} == map[] && e.slots[0 := FREE_SLOT] == [FREE_SLOT];
  }

  /** An item is taken by a get that the server acknowledges; before the handler deletes it the
      queue is purged and a new item is put, under the same tag. The late deletion takes the new
      item away: the put answered Ok, and the next get finds the ring not empty and no item. */
  lemma PurgeRace(name: Bytes, a: Bytes, b: Bytes, worker: Bytes, timeout: nat)
    requires NameOk(name) && a != [] && b != [] && 4 < |worker| <= 32
    ensures var ops := [OpPut(name, a, 0, false), OpGet(name, worker, true, false, true), OpPurge(name, 0, {}),
                        OpPut(name, b, 0, false), OpDrop(0, false), OpGet(name, worker, true, false, true)];
      Run(System(Idle(map[], timeout), []), ops).1 ==
      [Out(Ok, []), Out(Ok, a), Out(Ok, []), Out(Ok, []), Out(Ok, []), Out(Missing, [])]
  {
    hide NameOk, Put, Get, Purge, Token, Key, Single, Idle;
    var token, key := Token(0, 1), ItemKey(name, 0, 1);
    var none: map<Bytes, Bytes> := map[];
    assert none[key := a] == map[key := a];
    var promise := Promise(name, token);
    FirstPut(name, a, map[], timeout);
    OnlyGet(name, worker, map[key := a], timeout, true);
    EmptyPurge(name, map[key := a], timeout);
    FirstPut(name, b, map[key := a], timeout);
    OnlyGet(name, worker, map[], timeout, true);
    var s0 := System(Idle(map[], timeout), []);
    var s1 := System(Single(name, Ring(0, 1), NO_INFO, map[key := a], 0, timeout), []);
    var s2 := System(Single(name, Ring(1, 1), NO_INFO, map[key := a], 0, timeout), [promise]);
    var s3 := System(Idle(map[key := a], timeout), [promise]);
    var s4 := System(Single(name, Ring(0, 1), NO_INFO, map[key := b], 0, timeout), [promise]);
    var s5 := System(Single(name, Ring(0, 1), NO_INFO, map[], 0, timeout), []);
    var ops := [OpPut(name, a, 0, false), OpGet(name, worker, true, false, true), OpPurge(name, 0, {}),
                OpPut(name, b, 0, false), OpDrop(0, false), OpGet(name, worker, true, false, true)];
    assert s1.pending + [promise] == [promise];
    assert map[key := a][key := b] == map[key := b];
    LateDrop(name, b, timeout);
    var s6 := Step(s5, ops[5]).0;
    RunOf([s0, s1, s2, s3, s4, s5, s6], ops,
          [Out(Ok, []), Out(Ok, a), Out(Ok, []), Out(Ok, []), Out(Ok, []), Out(Missing, [])]);
  }

  lemma LateDrop(name: Bytes, b: Bytes, timeout: nat)
    ensures var key := ItemKey(name, 0, 1);
      DropStep(System(Single(name, Ring(0, 1), NO_INFO, map[key := b], 0, timeout), [Promise(name, Token(0, 1))]), 0, false) ==
      (System(Single(name, Ring(0, 1), NO_INFO, map[], 0, timeout), []), Out(Ok, []))
  {
    hide Token, Key;
    var key := ItemKey(name, 0, 1);
    assert map[key := b] - {key} == map[];
    assert Without([Promise(name, Token(0, 1))], 0) == [];
  }

  /** A run given state by state. */
  lemma {:induction false} RunOf(states: seq<System>, ops: seq<Op>, outs: seq<Out>)
    requires |states| == |ops| + 1 && |outs| == |ops|
    requires forall i :: 0 <= i < |ops| ==> Step(states[i], ops[i]) == (states[i + 1], outs[i])
    ensures Run(states[0], ops) == (states[|ops|], outs)
    decreases |ops|
  {
    hide Step;
    if ops != [] {
      assert Step(states[0], ops[0]) == (states[1], outs[0]);
      RunOf(states[1..], ops[1..], outs[1..]);
      assert outs == [outs[0]] + outs[1..];
    }
  }

  // ---------------------------------------------------------------- a stale entry

  lemma TokenIsName()
    ensures NameOk(Token(0, 1))
  {
    assert Token(0, 1) == [48, COLON, 49];
    assert NameByte(48) && NameByte(COLON) && NameByte(49);
  }

  /** A redelivery after a minute: the map keeps second 0, the multimap gets second 60. */
  lemma Redelivery(name: Bytes, worker: Bytes, item: Bytes)
    requires NameOk(name) && 4 < |worker| <= 32
    ensures var key, token := ItemKey(name, 0, 1), Token(0, 1);
      Get(Single(name, Ring(1, 1), Info(0, map[token := 0], [Due(0, token)]), map[key := item], 60, 1), name, worker, false, false) ==
      (Single(name, Ring(1, 1), Info(0, map[token := 0], [Due(60, token)]), map[key := item], 60, 1), Delivery(Ok, token, item))
  {
    hide NameOk, Token, Key;
    var key, token := ItemKey(name, 0, 1), Token(0, 1);
    var info := Info(0, map[token := 0], [Due(0, token)]);
    var e := Single(name, Ring(1, 1), info, map[key := item], 60, 1);
    var rest := Info(0, map[token := 0], []);
    assert info.redelivery[1..] == [];
    var e1 := Single(name, Ring(1, 1), rest, map[key := item], 60, 1);
    assert e.index[name := rest] == e1.index;
    assert Choose(e, 0, name) == (e1, Some(token));
    var again := Info(0, map[token := 0], [Due(60, token)]);
    assert InsertDue([], Due(60, token)) == [Due(60, token)];
    assert Remember(rest, token, 60) == again;
    assert e1.index[name := again] == map[name := again];
  }

  /** The acknowledgement looks for second 0 and leaves the entry of second 60. */
  lemma LateAck(name: Bytes, store: map<Bytes, Bytes>)
    requires NameOk(name)
    ensures var token := Token(0, 1);
      Unrecord(Single(name, Ring(1, 1), Info(0, map[token := 0], [Due(60, token)]), store, 60, 1), name, token) ==
      (Single(name, Ring(1, 1), Info(0, map[], [Due(60, token)]), store, 60, 1), Ok)
  {
    TokenIsName();
    hide NameOk, Token;
    var token := Token(0, 1);
    var info := Info(0, map[token := 0], [Due(60, token)]);
    var e := Single(name, Ring(1, 1), info, store, 60, 1);
    assert info.redelivery[1..] == [];
    assert EraseDue(info.redelivery, Due(0, token)) == [Due(60, token)];
    assert map[token := 0] - {token} == map[];
    var less := Info(0, map[], [Due(60, token)]);
    assert Forget(info, token) == less;
    assert e.index[name := less] == map[name := less];
  }

  /** With the stale entry overdue a get answers Missing although an item is ready, and leaves
      that item ready. */
  lemma StaleGet(name: Bytes, worker: Bytes, item: Bytes)
    requires NameOk(name) && 4 < |worker| <= 32
    ensures var token := Token(0, 1);
      var (e1, d) := Get(Single(name, Ring(1, 2), Info(0, map[], [Due(60, token)]), map[ItemKey(name, 0, 2) := item], 120, 1),
                         name, worker, false, false);
      d == Failed(Missing) && e1 == Single(name, Ring(1, 2), NO_INFO, map[ItemKey(name, 0, 2) := item], 120, 1)
  {
    var token := Token(0, 1);
    var store := map[ItemKey(name, 0, 2) := item];
    if ItemKey(name, 0, 2) == Key(name, token) { ItemKeyInjective(name, 0, 2, name, 0, 1); }
    hide NameOk, Token, Key;
    var info := Info(0, map[], [Due(60, token)]);
    var e := Single(name, Ring(1, 2), info, store, 120, 1);
    assert info.redelivery[1..] == [];
    assert e.index[name := NO_INFO] == map[name := NO_INFO];
    assert Choose(e, 0, name) == (Single(name, Ring(1, 2), NO_INFO, store, 120, 1), Some(token));
  }

  lemma SecondPut(name: Bytes, item: Bytes, info: Info, now: nat, timeout: nat)
    requires NameOk(name) && item != [] && info.offset == 0
    ensures Put(Single(name, Ring(1, 1), info, map[], now, timeout), name, item, 0, false) ==
            (Single(name, Ring(1, 2), info, map[ItemKey(name, 0, 2) := item], now, timeout), Ok)
  {
    hide NameOk, ItemKey;
    var none: map<Bytes, Bytes> := map[];
    var e := Single(name, Ring(1, 1), info, none, now, timeout);
    assert FindOrCreate(e, name) == (e, Some(0));
    assert none[ItemKey(name, 0, 2) := item] == map[ItemKey(name, 0, 2) := item];
    assert e.slots[0].rings[0 := Ring(1, 2)] == [Ring(1, 2), EMPTY_RING, EMPTY_RING];
    assert SetRing(e, 0, 0, Ring(1, 2)).slots == Single(name, Ring(1, 2), info, none, now, timeout).slots;
  }

  lemma {:induction false} RunAppend(s: System, xs: seq<Op>, ys: seq<Op>)
    ensures var (s1, outs) := Run(s, xs);
      Run(s, xs + ys) == (Run(s1, ys).0, outs + Run(s1, ys).1)
    decreases |xs|
  {
    hide Step;
    if xs == [] {
      assert xs + ys == ys && [] + Run(s, ys).1 == Run(s, ys).1;
    } else {
      assert (xs + ys)[1..] == xs[1..] + ys;
      var (s1, out) := Step(s, xs[0]);
      RunAppend(s1, xs[1..], ys);
      var (s2, outs) := Run(s1, xs[1..]);
      assert [out] + (outs + Run(s2, ys).1) == [out] + outs + Run(s2, ys).1;
    }
  }

  /** The item is acknowledged, the entry of its redelivery is not removed. */
  function Stale(name: Bytes, a: Bytes): System {
    System(Single(name, Ring(1, 1), Info(0, map[], [Due(60, Token(0, 1))]), map[ItemKey(name, 0, 1) := a], 60, 1),
           [Promise(name, Token(0, 1))])
  }

  lemma StaleSetup(name: Bytes, a: Bytes, worker: Bytes)
    requires NameOk(name) && a != [] && 4 < |worker| <= 32
    ensures var get := OpGet(name, worker, false, false, true);
      Run(System(Idle(map[], 1), []), [OpPut(name, a, 0, false), get, OpClock(60), get, OpAck(name, Token(0, 1))]) ==
      (Stale(name, a), [Out(Ok, []), Out(Ok, a), Out(Ok, []), Out(Ok, a), Out(Ok, [])])
  {
    hide NameOk, Put, Get, Unrecord, Token, Key;
    var token, key := Token(0, 1), ItemKey(name, 0, 1);
    var none: map<Bytes, Bytes> := map[];
    var full := map[key := a];
    assert none[key := a] == full;
    var first, again := Info(0, map[token := 0], [Due(0, token)]), Info(0, map[token := 0], [Due(60, token)]);
    FirstPut(name, a, none, 1);
    OnlyGet(name, worker, full, 1, false);
    Redelivery(name, worker, a);
    LateAck(name, full);
    var s0 := System(Idle(none, 1), []);
    var s1 := System(Single(name, Ring(0, 1), NO_INFO, full, 0, 1), []);
    var s2 := System(Single(name, Ring(1, 1), first, full, 0, 1), []);
    var s3 := System(Single(name, Ring(1, 1), first, full, 60, 1), []);
    var s4 := System(Single(name, Ring(1, 1), again, full, 60, 1), []);
    assert s4.pending + [Promise(name, token)] == [Promise(name, token)];
    var nothing: seq<Promise> := [];
    assert nothing + [] == nothing;
    var get := OpGet(name, worker, false, false, true);
    RunOf([s0, s1, s2, s3, s4, Stale(name, a)], [OpPut(name, a, 0, false), get, OpClock(60), get, OpAck(name, token)],
          [Out(Ok, []), Out(Ok, a), Out(Ok, []), Out(Ok, a), Out(Ok, [])]);
  }

  lemma StaleRest(name: Bytes, a: Bytes, b: Bytes, worker: Bytes)
    requires NameOk(name) && b != [] && 4 < |worker| <= 32
    ensures
      Run(Stale(name, a), [OpDrop(0, false), OpPut(name, b, 0, false), OpClock(120), OpGet(name, worker, false, false, true)]) ==
      (System(Single(name, Ring(1, 2), NO_INFO, map[ItemKey(name, 0, 2) := b], 120, 1), []),
       [Out(Ok, []), Out(Ok, []), Out(Ok, []), Out(Missing, [])])
  {
    hide NameOk, Put, Get, Token, Key;
    var token, key := Token(0, 1), ItemKey(name, 0, 1);
    var none: map<Bytes, Bytes> := map[];
    assert map[key := a] - {key} == none;
    var stale := Info(0, map[], [Due(60, token)]);
    SecondPut(name, b, stale, 60, 1);
    StaleGet(name, worker, b);
    var s1 := System(Single(name, Ring(1, 1), stale, none, 60, 1), []);
    var s2 := System(Single(name, Ring(1, 2), stale, map[ItemKey(name, 0, 2) := b], 60, 1), []);
    var s3 := System(Single(name, Ring(1, 2), stale, map[ItemKey(name, 0, 2) := b], 120, 1), []);
    var s4 := System(Single(name, Ring(1, 2), NO_INFO, map[ItemKey(name, 0, 2) := b], 120, 1), []);
    assert Without([Promise(name, token)], 0) == [];
    RunOf([Stale(name, a), s1, s2, s3, s4],
          [OpDrop(0, false), OpPut(name, b, 0, false), OpClock(120), OpGet(name, worker, false, false, true)],
          [Out(Ok, []), Out(Ok, []), Out(Ok, []), Out(Missing, [])]);
  }

  /** An item is delivered, redelivered a minute later and acknowledged; the entry the ack left
      behind makes a get answer Missing while another item is ready. */
  lemma StaleEntryHidesItem(name: Bytes, a: Bytes, b: Bytes, worker: Bytes)
    requires NameOk(name) && a != [] && b != [] && 4 < |worker| <= 32
    ensures var get := OpGet(name, worker, false, false, true);
      var ops := [OpPut(name, a, 0, false), get, OpClock(60), get, OpAck(name, Token(0, 1))] +
                 [OpDrop(0, false), OpPut(name, b, 0, false), OpClock(120), get];
      var (s, outs) := Run(System(Idle(map[], 1), []), ops);
      && outs == [Out(Ok, []), Out(Ok, a), Out(Ok, []), Out(Ok, a), Out(Ok, [])] +
                 [Out(Ok, []), Out(Ok, []), Out(Ok, []), Out(Missing, [])]
      && s.engine == Single(name, Ring(1, 2), NO_INFO, map[ItemKey(name, 0, 2) := b], 120, 1)
  {
    hide NameOk, Run, Token, ItemKey;
    var get := OpGet(name, worker, false, false, true);
    StaleSetup(name, a, worker);
    StaleRest(name, a, b, worker);
    RunAppend(System(Idle(map[], 1), []), [OpPut(name, a, 0, false), get, OpClock(60), get, OpAck(name, Token(0, 1))],
              [OpDrop(0, false), OpPut(name, b, 0, false), OpClock(120), get]);
  }
}
