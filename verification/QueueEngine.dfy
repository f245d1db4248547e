/** The queue engine as an object, with the loops of hustdb.cpp over its slot array, its tags
    and its multimap. Every method computes the corresponding function of QueueModel. */
module QueueEngine {
  import opened Bytes
  import opened Decimal
  import opened QueueRing
  import opened QueueKeys
  import opened SlotIndex
  import opened QueueModel
  import opened QueueRedelivery

  lemma {:induction false} EraseAt(list: seq<Due>, d: Due, i: nat)
    requires i < |list| && list[i] == d && forall j :: 0 <= j < i ==> list[j] != d
    ensures EraseDue(list, d) == list[..i] + list[i + 1..]
  {
    if i > 0 {
      var rest := list[1..];
      forall j | 0 <= j < i - 1 ensures rest[j] != d {
        assert rest[j] == list[j + 1];
      }
      EraseAt(rest, d, i - 1);
      assert [list[0]] + (rest[..i - 1] + rest[i..]) == list[..i] + list[i + 1..];
    }
  }

  /** The scan of hustmq_ack: from the first entry of that time, through its equal range, to
      the entry with the token. */
  method EraseScan(list: seq<Due>, time: nat, token: Bytes) returns (less: seq<Due>)
    requires SortedByTime(list)
    ensures less == EraseDue(list, Due(time, token))
  {
    var d := Due(time, token);
    var i := 0;
    while i < |list| && list[i].time != time
      invariant 0 <= i <= |list|
      invariant forall j :: 0 <= j < i ==> list[j].time != time
    {
      i := i + 1;
    }
    while i < |list|
      invariant 0 <= i <= |list|
      invariant forall j :: 0 <= j < i ==> list[j] != d
      invariant i < |list| ==> list[i].time >= time || d !in list
    {
      if list[i].time != time {
        break;
      }
      if list[i].token == token {
        EraseAt(list, d, i);
        return list[..i] + list[i + 1..];
      }
      i := i + 1;
    }
    EraseAbsent(list, d);
    return list;
  }

  class HustMq {
    const slots: array<Slot>
    var index: map<Bytes, Info>
    var store: map<Bytes, Bytes>
    var now: nat
    var over: bool
    const timeout: nat

    ghost function State(): Engine
      reads this, slots
    {
      Engine(slots[..], index, store, now, over, timeout)
    }

    /** What the code relies on when it follows an offset into the array. */
    ghost predicate Valid()
      reads this, slots
    {
      && RingsInRange()
      && forall n :: n in index ==> index[n].offset < slots.Length && SortedByTime(index[n].redelivery)
    }

    ghost predicate RingsInRange()
      reads slots
    {
      forall i, p :: 0 <= i < slots.Length && 0 <= p < 3 ==> InRange(slots[i].rings[p])
    }

    constructor (n: nat, timeout: nat)
      ensures Valid() && fresh(slots)
      ensures slots.Length == n && (forall i :: 0 <= i < n ==> slots[i] == FREE_SLOT)
      ensures index == map[] && store == map[] && now == 0 && !over && this.timeout == timeout
    {
      slots := new Slot[n](i => FREE_SLOT);
      index, store, now, over := map[], map[], 0, false;
      this.timeout := timeout;
    }

    /** find_queue_offset without creation. */
    method FindQueue(name: Bytes) returns (at: Option<nat>)
      requires Valid()
      ensures at == Find(State(), name)
    {
      if name in index && slots[index[name].offset].kind == QUEUE_TB {
        return Some(index[name].offset);
      }
      return None;
    }

    /** find_queue_offset with creation: a slot that carries the name, else a free one. */
    method FindOrCreateQueue(name: Bytes) returns (at: Option<nat>)
      requires Valid()
      modifies this`index, slots
      ensures Valid()
      ensures (State(), at) == FindOrCreate(old(State()), name)
    {
      if name in index {
        at := FindQueue(name);
        return;
      }
      var i := 0;
      while i < slots.Length
        invariant 0 <= i <= slots.Length && State() == old(State())
        invariant forall j :: 0 <= j < i ==> !(slots[j].flag && slots[j].name == name)
      {
        if slots[i].flag && slots[i].name == name {
          FindNameIs(SlotNames(slots[..]), name, 0, i);
          return Some(i);
        }
        i := i + 1;
      }
      FindNameIs(SlotNames(slots[..]), name, 0, slots.Length);
      i := 0;
      while i < slots.Length
        invariant 0 <= i <= slots.Length && State() == old(State())
        invariant forall j :: 0 <= j < i ==> slots[j].flag
      {
        if !slots[i].flag {
          FirstFreeIs(SlotNames(slots[..]), 0, i);
          slots[i] := FREE_SLOT.(flag := true, kind := QUEUE_TB, timeout := timeout % 256, ctime := now, name := name);
          index := index[name := Info(i, map[], [])];
          assert slots[..] == old(slots[..])[i := slots[i]];
          return Some(i);
        }
        i := i + 1;
      }
      FirstFreeIs(SlotNames(slots[..]), 0, slots.Length);
      return None;
    }

    method Put(name: Bytes, item: Bytes, p: nat, fault: bool) returns (code: Code)
      requires Valid()
      modifies this`index, this`store, slots
      ensures Valid()
      ensures (State(), code) == QueueModel.Put(old(State()), name, item, p, fault)
    {
      hide NameOk, FindOrCreate, ItemKey, RealItem;
      if !NameOk(name) || item == [] || p > 2 {
        return Rejected;
      }
      if over {
        return OverThreshold;
      }
      var at := FindOrCreateQueue(name);
      if at.None? {
        return NoQueue;
      }
      var slot := slots[at.value];
      var tag := (slot.rings[p].ep + 1) % CYCLE;
      var total := RealItem(slot.rings[0].sp, slot.rings[0].ep) + RealItem(slot.rings[1].sp, slot.rings[1].ep)
                + RealItem(slot.rings[2].sp, slot.rings[2].ep);
      if slot.lock || (slot.max > 0 && total >= slot.max) || total >= MAX_ITEMS {
        return Refused;
      }
      if fault {
        return StorageFault;
      }
      ghost var before := slots[..];
      store := store[ItemKey(name, p, tag) := item];
      slots[at.value] := slot.(rings := slot.rings[p := slot.rings[p].(ep := tag)]);
      assert slots[..] == before[at.value := slots[at.value]];
      return Ok;
    }

    method Get(name: Bytes, worker: Bytes, isAck: bool, fault: bool) returns (d: Delivery)
      requires Valid()
      modifies this`index, slots
      ensures Valid()
      ensures (State(), d) == QueueModel.Get(old(State()), name, worker, isAck, fault)
    {
      hide NameOk, Key, RealItem, InsertDue, Digits;
      if !NameOk(name) || |worker| <= 4 || |worker| > 32 {
        return Failed(Rejected);
      }
      var at := FindQueue(name);
      if at.None? {
        return Failed(NoQueue);
      }
      var token := ChooseItem(name, at.value);
      if token.None? {
        return Failed(Missing);
      }
      var key := Key(name, token.value);
      if fault {
        return Failed(StorageFault);
      }
      if key !in store {
        return Failed(Missing);
      }
      if !isAck {
        var info := index[name];
        if token.value !in info.unacked {
          info := info.(unacked := info.unacked[token.value := now]);
        }
        InsertSorted(info.redelivery, Due(now, token.value));
        info := info.(redelivery := InsertDue(info.redelivery, Due(now, token.value)));
        index := index[name := info];
      }
      return Delivery(Ok, token.value, store[key]);
    }

    /** The part of hustmq_get that picks the item and moves sp or the multimap. */
    method ChooseItem(name: Bytes, at: nat) returns (token: Option<Bytes>)
      requires Valid() && name in index && at == index[name].offset
      modifies this`index, slots
      ensures Valid()
      ensures (State(), token) == Choose(old(State()), at, name)
      ensures name in index
    {
      hide RealItem, Digits;
      var info := index[name];
      var slot := slots[at];
      if info.redelivery != [] && now as int - info.redelivery[0].time >= slot.timeout * 60 {
        index := index[name := info.(redelivery := info.redelivery[1..])];
        return Some(info.redelivery[0].token);
      }
      var p := 0;
      if RealItem(slot.rings[2].sp, slot.rings[2].ep) > 0 {
        p := 2;
      } else if RealItem(slot.rings[1].sp, slot.rings[1].ep) > 0 {
        p := 1;
      } else if RealItem(slot.rings[0].sp, slot.rings[0].ep) > 0 {
        p := 0;
      } else {
        return None;
      }
      var tag := (slot.rings[p].sp + 1) % CYCLE;
      slots[at] := slot.(rings := slot.rings[p := slot.rings[p].(sp := tag)]);
      assert slots[..] == old(slots[..])[at := slots[at]];
      return Some(Token(p, tag));
    }

    /** The locked part of hustmq_ack. */
    method Unrecord(name: Bytes, token: Bytes) returns (code: Code)
      requires Valid()
      modifies this`index
      ensures Valid()
      ensures (State(), code) == QueueModel.Unrecord(old(State()), name, token)
    {
      hide NameOk, EraseDue;
      if !NameOk(name) || !NameOk(token) {
        return Rejected;
      }
      var at := FindQueue(name);
      if at.None? || token !in index[name].unacked {
        return NoQueue;
      }
      var info := index[name];
      var rest := EraseScan(info.redelivery, info.unacked[token], token);
      EraseSorted(info.redelivery, Due(info.unacked[token], token));
      index := index[name := info.(redelivery := rest, unacked := info.unacked - {token})];
      return Ok;
    }

    /** hustmq_ack_inner, and the end of hustmq_ack. */
    method DropItem(name: Bytes, token: Bytes, fault: bool) returns (code: Code)
      requires Valid()
      modifies this`store
      ensures Valid()
      ensures (State(), code) == Drop(old(State()), name, token, fault)
    {
      var key := Key(name, token);
      if fault {
        return StorageFault;
      }
      if key !in store {
        return Missing;
      }
      store := store - {key};
      return Ok;
    }

    /** hustmq_ack without another operation in between. */
    method Ack(name: Bytes, token: Bytes, fault: bool) returns (code: Code)
      requires Valid()
      modifies this`index, this`store
      ensures Valid()
      ensures var (e1, locked) := QueueModel.Unrecord(old(State()), name, token);
        (State(), code) == if locked.Ok? then Drop(e1, name, token, fault) else (e1, locked)
    {
      hide QueueModel.Unrecord, Drop;
      code := Unrecord(name, token);
      if code == Ok {
        code := DropItem(name, token, fault);
      }
    }

    /** The deletion loop of hustmq_purge, whose end tag runs past CYCLE when wrapped. */
    method DeleteTags(name: Bytes, p: nat, ring: Ring, stuck: set<Bytes>) returns (walked: nat)
      requires InRange(ring)
      modifies this`store
      ensures store == old(store) - (PurgeKeys(name, p, ring) - stuck)
      ensures walked == RealItem(ring.sp, ring.ep)
    {
      hide ItemKey;
      var stag, etag := ring.sp, ring.ep;
      if stag > etag && stag > MAX_ITEMS {
        etag := etag + CYCLE;
      }
      walked := RealItem(stag, etag);
      ghost var keys: set<Bytes> := {};
      var t := stag + 1;
      while t <= etag
        invariant stag + 1 <= t && (t <= etag + 1 || t == stag + 1)
        invariant forall k :: k in keys <==> exists j: nat :: j < t - stag - 1 && k == ItemKey(name, p, PurgeTag(ring, j))
        invariant store == old(store) - (keys - stuck)
      {
        var key := ItemKey(name, p, t % CYCLE);
        assert PurgeTag(ring, t - stag - 1) == t % CYCLE;
        if key !in stuck {
          store := store - {key};
        }
        keys := keys + {key};
        t := t + 1;
      }
      assert keys == PurgeKeys(name, p, ring);
    }

    method Purge(name: Bytes, p: nat, stuck: set<Bytes>) returns (code: Code)
      requires Valid()
      modifies this`index, this`store, slots
      ensures Valid()
      ensures (State(), code) == QueueModel.Purge(old(State()), name, p, stuck)
    {
      hide NameOk, PurgeKeys, RealItem;
      if !NameOk(name) || p > 2 {
        return Rejected;
      }
      var at := FindQueue(name);
      if at.None? {
        return NoQueue;
      }
      var slot := slots[at.value];
      var ring := slot.rings[p];
      var walked := DeleteTags(name, p, ring, stuck);
      if Real(slot) - walked == 0 {
        index := index - {name};
        slots[at.value] := FREE_SLOT;
      } else {
        slots[at.value] := slot.(rings := slot.rings[p := Ring(0, 0)]);
      }
      assert slots[..] == old(slots[..])[at.value := slots[at.value]];
      return Ok;
    }

    /** hustmq_max. */
    method SetMax(name: Bytes, max: nat) returns (code: Code)
      requires Valid()
      modifies slots
      ensures Valid()
      ensures (State(), code) == QueueModel.SetMax(old(State()), name, max)
    {
      hide NameOk;
      if !NameOk(name) || max > MAX_ITEMS {
        return Rejected;
      }
      var at := FindQueue(name);
      if at.None? {
        return NoQueue;
      }
      slots[at.value] := slots[at.value].(max := max);
      assert slots[..] == old(slots[..])[at.value := slots[at.value]];
      return Ok;
    }

    /** hustmq_lock. */
    method SetLock(name: Bytes, lock: bool) returns (code: Code)
      requires Valid()
      modifies slots
      ensures Valid()
      ensures (State(), code) == QueueModel.SetLock(old(State()), name, lock)
    {
      hide NameOk;
      if !NameOk(name) {
        return Rejected;
      }
      var at := FindQueue(name);
      if at.None? {
        return NoQueue;
      }
      slots[at.value] := slots[at.value].(lock := lock);
      assert slots[..] == old(slots[..])[at.value := slots[at.value]];
      return Ok;
    }

    /** The loop of init_queue_index. */
    method InitIndex()
      modifies this`index
      ensures RingsInRange() ==> Valid()
      ensures State() == Restart(old(State()))
    {
      hide SlotNames;
      ghost var names := SlotNames(slots[..]);
      index := map[];
      var i := 0;
      while i < slots.Length
        invariant 0 <= i <= slots.Length
        invariant index == Entries(Rebuild(names, 0, i))
        invariant forall n :: n in index ==> index[n].offset < i && index[n].redelivery == []
        invariant State() == old(State()).(index := index)
      {
        NameOf(slots[..], i);
        EntriesAdd(Rebuild(names, 0, i), slots[i].name, i);
        if slots[i].flag && slots[i].name !in index {
          index := index[slots[i].name := Info(i, map[], [])];
        }
        i := i + 1;
      }
    }
  }

  lemma NameOf(slots: seq<Slot>, i: nat)
    requires i < |slots|
    ensures SlotNames(slots)[i] == if slots[i].flag then Some(slots[i].name) else None
  {
  }

  lemma EntriesAdd(offsets: map<Bytes, nat>, name: Bytes, i: nat)
    ensures Entries(offsets[name := i]) == Entries(offsets)[name := Info(i, map[], [])]
    ensures name in Entries(offsets) <==> name in offsets
  {
  }
}
