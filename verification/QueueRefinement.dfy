/** The queue engine refines named queues of three first-in-first-out sequences. */
module QueueRefinement {
  import opened Bytes
  import opened QueueRing
  import opened QueueKeys
  import opened SlotIndex
  import opened QueueModel

  // ---------------------------------------------------------------- the simple form

  /** One queue: the ready items of each priority, oldest first, and its settings. */
  datatype Fifo = Fifo(ready: seq<seq<Bytes>>, lock: bool, max: nat)

  const EMPTY_FIFO: Fifo := Fifo([[], [], []], false, 0)

  /** `others` are the names that publish queues hold. */
  datatype Queues = Queues(queues: map<Bytes, Fifo>, others: set<Bytes>, capacity: nat, over: bool)

  function Count(f: Fifo): nat
    requires |f.ready| == 3
  {
    |f.ready[0]| + |f.ready[1]| + |f.ready[2]|
  }

  predicate FifoFull(f: Fifo)
    requires |f.ready| == 3
  {
    f.lock || (f.max > 0 && Count(f) >= f.max) || Count(f) >= 5_000_000
  }

  /** A queue is created on its first put while there is room for one more. */
  function Opened(q: Queues, name: Bytes): Queues {
    if name in q.queues || name in q.others || |q.queues| + |q.others| >= q.capacity then q
    else q.(queues := q.queues[name := EMPTY_FIFO])
  }

  function SpecPut(q: Queues, name: Bytes, item: Bytes, p: nat, fault: bool): (Queues, Code) {
    if !NameOk(name) || item == [] || p > 2 then (q, Rejected)
    else if q.over then (q, OverThreshold)
    else
      var q1 := Opened(q, name);
      if name !in q1.queues || |q1.queues[name].ready| != 3 then (q1, NoQueue)
      else
        var f := q1.queues[name];
        if FifoFull(f) then (q1, Refused)
        else if fault then (q1, StorageFault)
        else (q1.(queues := q1.queues[name := f.(ready := f.ready[p := f.ready[p] + [item]])]), Ok)
  }

  /** The highest priority that has items. */
  function Highest(f: Fifo): (p: Option<nat>)
    requires |f.ready| == 3
    ensures p.Some? ==> p.value < 3 && f.ready[p.value] != []
  {
    if f.ready[2] != [] then Some(2) else if f.ready[1] != [] then Some(1)
    else if f.ready[0] != [] then Some(0) else None
  }

  /** Taking the head of the highest priority; a storage fault still consumes it. */
  function SpecTake(q: Queues, name: Bytes, worker: Bytes, fault: bool): (Queues, Code, Bytes) {
    if !NameOk(name) || |worker| <= 4 || |worker| > 32 then (q, Rejected, [])
    else if name !in q.queues || |q.queues[name].ready| != 3 then (q, NoQueue, [])
    else
      var f := q.queues[name];
      match Highest(f)
      case None => (q, Missing, [])
      case Some(p) =>
        var q1 := q.(queues := q.queues[name := f.(ready := f.ready[p := f.ready[p][1..]])]);
        if fault then (q1, StorageFault, []) else (q1, Ok, f.ready[p][0])
  }

  function SpecPurge(q: Queues, name: Bytes, p: nat): (Queues, Code) {
    if !NameOk(name) || p > 2 then (q, Rejected)
    else if name !in q.queues || |q.queues[name].ready| != 3 then (q, NoQueue)
    else
      var f := q.queues[name];
      if Count(f) == |f.ready[p]| then (q.(queues := q.queues - {name}), Ok)
      else (q.(queues := q.queues[name := f.(ready := f.ready[p := []])]), Ok)
  }

  // ---------------------------------------------------------------- abstraction and invariant

  function Lookup(store: map<Bytes, Bytes>, key: Bytes): Bytes {
    if key in store then store[key] else []
  }

  /** The stored items of a ring, oldest first. */
  function Items(store: map<Bytes, Bytes>, name: Bytes, p: nat, r: Ring): (items: seq<Bytes>)
    requires InRange(r)
    ensures |items| == Size(r)
  {
    var tags := Tags(r);
    seq(|tags|, k requires 0 <= k < |tags| => Lookup(store, ItemKey(name, p, tags[k])))
  }

  predicate RingsOk(s: Slot) {
    && InRange(s.rings[0]) && InRange(s.rings[1]) && InRange(s.rings[2])
    && Size(s.rings[0]) + Size(s.rings[1]) + Size(s.rings[2]) <= MAX_ITEMS
  }

  predicate SlotOk(s: Slot, name: Bytes) {
    s.flag && s.name == name && NameOk(name) && (s.kind == QUEUE_TB ==> RingsOk(s))
  }

  /** Every name has its slot and every slot in use its name. */
  ghost predicate Mapped(e: Engine) {
    && IndexOk(SlotNames(e.slots), 0, Offsets(e.index))
    && (forall n :: n in e.index ==> e.index[n].offset < |e.slots| && SlotOk(e.slots[e.index[n].offset], n))
  }

  function SlotOf(e: Engine, n: Bytes): Slot
    requires n in e.index && e.index[n].offset < |e.slots|
  {
    e.slots[e.index[n].offset]
  }

  /** The name is that of a queue of items; a publish queue holds its slot and nothing else. */
  predicate IsQueue(e: Engine, n: Bytes) {
    n in e.index && e.index[n].offset < |e.slots| && SlotOf(e, n).kind == QUEUE_TB
  }

  /** t is the tag of a ready item of queue n, priority p. */
  predicate IsReady(e: Engine, n: Bytes, p: nat, t: nat) {
    && IsQueue(e, n) && p < 3
    && InRange(SlotOf(e, n).rings[p])
    && t in Tags(SlotOf(e, n).rings[p])
  }

  /** Every ready item is stored, and items are never empty. */
  ghost predicate Stored(e: Engine) {
    forall n, p, t :: IsReady(e, n, p, t) ==>
      ItemKey(n, p, t) in e.store && e.store[ItemKey(n, p, t)] != []
  }

  ghost predicate Inv(e: Engine) {
    Mapped(e) && Stored(e)
  }

  function FifoOf(store: map<Bytes, Bytes>, s: Slot): Fifo
    requires RingsOk(s)
  {
    Fifo([Items(store, s.name, 0, s.rings[0]), Items(store, s.name, 1, s.rings[1]), Items(store, s.name, 2, s.rings[2])],
         s.lock, s.max)
  }

  /** One queue of the engine. */
  ghost function ViewOf(e: Engine, n: Bytes): Fifo
    requires Mapped(e) && IsQueue(e, n)
  {
    FifoOf(e.store, SlotOf(e, n))
  }

  ghost function Abs(e: Engine): Queues
    requires Mapped(e)
  {
    Queues(map n | n in e.index && IsQueue(e, n) :: ViewOf(e, n), set n | n in e.index && !IsQueue(e, n), |e.slots|, e.over)
  }

  // ---------------------------------------------------------------- small facts

  lemma RealIsCount(store: map<Bytes, Bytes>, s: Slot)
    requires RingsOk(s)
    ensures Real(s) == Count(FifoOf(store, s)) <= MAX_ITEMS
    ensures Full(s) <==> FifoFull(FifoOf(store, s))
    ensures Pick(s) == Highest(FifoOf(store, s))
    ensures forall p :: 0 <= p < 3 ==> RealItem(s.rings[p].sp, s.rings[p].ep) == Size(s.rings[p])
  {
    hide Items;
    RealItemExact(s.rings[0]);
    RealItemExact(s.rings[1]);
    RealItemExact(s.rings[2]);
  }

  lemma RingsAre(e: Engine, n: Bytes)
    requires Mapped(e) && IsQueue(e, n)
    ensures RingsOk(SlotOf(e, n)) && forall q :: 0 <= q < 3 ==> InRange(SlotOf(e, n).rings[q])
  {
    hide NameOk, IndexOk, SlotNames, Offsets;
  }

  lemma FindOk(e: Engine, name: Bytes)
    ensures Find(e, name).Some? <==> IsQueue(e, name)
  {
  }

  /** Items depend only on the stored values of the ring's own keys. */
  lemma SameItems(store: map<Bytes, Bytes>, store': map<Bytes, Bytes>, n: Bytes, p: nat, r: Ring)
    requires InRange(r)
    requires forall t :: t in Tags(r) ==> Lookup(store, ItemKey(n, p, t)) == Lookup(store', ItemKey(n, p, t))
    ensures Items(store, n, p, r) == Items(store', n, p, r)
  {
  }

  /** A change of the store outside the ready keys of a queue leaves its contents. */
  lemma SameFifo(e: Engine, store': map<Bytes, Bytes>, n: Bytes)
    requires Mapped(e) && IsQueue(e, n)
    requires forall p, t :: IsReady(e, n, p, t) ==> Lookup(e.store, ItemKey(n, p, t)) == Lookup(store', ItemKey(n, p, t))
    ensures ViewOf(e, n) == FifoOf(store', SlotOf(e, n))
  {
    hide ItemKey, Lookup, Items, Tags, NameOk;
    var s := SlotOf(e, n);
    assert RingsOk(s) && s.name == n;
    forall p | 0 <= p < 3 ensures Items(e.store, n, p, s.rings[p]) == Items(store', n, p, s.rings[p]) {
      forall t | t in Tags(s.rings[p]) ensures Lookup(e.store, ItemKey(n, p, t)) == Lookup(store', ItemKey(n, p, t)) {
        assert IsReady(e, n, p, t);
      }
      SameItems(e.store, store', n, p, s.rings[p]);
    }
  }

  // ---------------------------------------------------------------- opening a queue

  lemma NamedOnlyIfIndexed(e: Engine, name: Bytes)
    requires Mapped(e) && name !in e.index
    ensures FindName(SlotNames(e.slots), name, 0) == |e.slots|
  {
    hide SlotOk, SlotNames;
    OffsetKeys(e.index);
  }

  /** The slot a new queue gets, if there is one. */
  lemma OpenIs(e: Engine, name: Bytes)
    requires Mapped(e)
    ensures var (e1, at) := FindOrCreate(e, name); var i := FirstFree(SlotNames(e.slots), 0);
      && (name in e.index ==> e1 == e && at == if IsQueue(e, name) then Some(e.index[name].offset) else None)
      && (name !in e.index && i == |e.slots| ==> e1 == e && at.None?)
      && (name !in e.index && i < |e.slots| ==>
            && at == Some(i) && !e.slots[i].flag
            && e1 == e.(slots := e.slots[i := NewSlot(e, name)], index := e.index[name := Info(i, map[], [])]))
  {
    hide NameOk, RingsOk;
    FindOk(e, name);
    if name !in e.index {
      NamedOnlyIfIndexed(e, name);
    }
  }

  lemma OpenKeepsMapped(e: Engine, name: Bytes)
    requires Mapped(e) && NameOk(name)
    ensures var (e1, at) := FindOrCreate(e, name);
      && Mapped(e1)
      && (at.Some? <==> IsQueue(e1, name))
      && (at.Some? ==> at.value == e1.index[name].offset)
  {
    hide NameOk, Mapped, FindOrCreate, NewSlot;
    OpenIs(e, name);
    var i := FirstFree(SlotNames(e.slots), 0);
    if name !in e.index && i < |e.slots| {
      CreateKeepsMapped(e, name, i);
    }
  }

  /** Creating a queue takes the first free slot; it fails exactly when all slots are used. */
  lemma OpenRefines(e: Engine, name: Bytes)
    requires Inv(e) && NameOk(name)
    ensures var (e1, at) := FindOrCreate(e, name);
      && Inv(e1) && Abs(e1) == Opened(Abs(e), name)
      && (at.Some? <==> IsQueue(e1, name))
      && (at.Some? ==> at.value == e1.index[name].offset)
      && (name in e.index ==> e1 == e)
      && (name !in e.index && name in e1.index ==> e1.index[name].unacked == map[] && e1.index[name].redelivery == [])
  {
    hide Inv, Mapped, NameOk, FindOrCreate, NewSlot, ViewOf, SlotNames, Offsets;
    MappedOf(e);
    OpenIs(e, name);
    if name !in e.index {
      FullByCount(e);
      var i := FirstFree(SlotNames(e.slots), 0);
      if i < |e.slots| {
        CreateRefines(e, name, i);
      }
    }
  }

  lemma MappedOf(e: Engine)
    requires Inv(e)
    ensures Mapped(e)
  {
  }

  lemma FullByCount(e: Engine)
    requires Mapped(e)
    ensures FirstFree(SlotNames(e.slots), 0) == |e.slots| <==> |Abs(e).queues| + |Abs(e).others| == |e.slots|
    ensures |Abs(e).queues| + |Abs(e).others| <= |e.slots|
  {
    hide SlotOk, FifoOf, Abs;
    var names, offsets := SlotNames(e.slots), Offsets(e.index);
    FullIff(names, 0, offsets);
    NamesCount(e);
    assert offsets.Keys == e.index.Keys;
    assert |offsets| == |offsets.Keys| && |e.index| == |e.index.Keys|;
  }

  lemma NamesCount(e: Engine)
    requires Mapped(e)
    ensures |Abs(e).queues| + |Abs(e).others| == |e.index|
  {
    hide Mapped, ViewOf, IsQueue;
    var q := Abs(e);
    assert q.queues.Keys + q.others == e.index.Keys && q.queues.Keys !! q.others;
    assert |q.queues.Keys + q.others| == |q.queues.Keys| + |q.others|;
    assert |q.queues| == |q.queues.Keys| && |e.index| == |e.index.Keys|;
  }

  lemma CreateRefines(e: Engine, name: Bytes, i: nat)
    requires Inv(e) && NameOk(name) && name !in e.index && i < |e.slots| && !e.slots[i].flag
    ensures var e1 := e.(slots := e.slots[i := NewSlot(e, name)], index := e.index[name := Info(i, map[], [])]);
      && Inv(e1)
      && Abs(e1) == Abs(e).(queues := Abs(e).queues[name := EMPTY_FIFO])
  {
    hide NameOk, ItemKey, Token, IndexOk, SlotNames, Offsets, FifoOf, Tags, SlotOk, RingsOk;
    var e1 := e.(slots := e.slots[i := NewSlot(e, name)], index := e.index[name := Info(i, map[], [])]);
    CreateKeepsMapped(e, name, i);
    NewSlotRings(e, name);
    forall n, p, t | IsReady(e1, n, p, t) ensures IsReady(e, n, p, t) && e1.index[n] == e.index[n] {
    }
    AbsUpdate(e, e1, name);
  }

  lemma CreateNames(e: Engine, name: Bytes, i: nat)
    requires name !in e.index && i < |e.slots|
    ensures SlotNames(e.slots[i := NewSlot(e, name)]) == SlotNames(e.slots)[i := Some(name)]
    ensures Offsets(e.index[name := Info(i, map[], [])]) == Offsets(e.index)[name := i]
  {
  }

  lemma CreateKeepsMapped(e: Engine, name: Bytes, i: nat)
    requires Mapped(e) && NameOk(name) && name !in e.index && i < |e.slots| && !e.slots[i].flag
    ensures var e1 := e.(slots := e.slots[i := NewSlot(e, name)], index := e.index[name := Info(i, map[], [])]);
      && Mapped(e1) && IsQueue(e1, name)
      && forall n :: n in e.index ==> e1.index[n] == e.index[n] && e.index[n].offset != i
  {
    hide NameOk, RingsOk, IndexOk, Offsets;
    assert SlotNames(e.slots)[i] == None;
    CreateNames(e, name, i);
    assert RingsOk(NewSlot(e, name)) by { NewSlotRings(e, name); }
    assert name !in Offsets(e.index) by { OffsetKeys(e.index); }
    ClaimSlot(SlotNames(e.slots), 0, Offsets(e.index), i, name);
  }

  lemma OffsetKeys(index: map<Bytes, Info>)
    ensures Offsets(index).Keys == index.Keys
  {
  }

  lemma NewSlotRings(e: Engine, name: Bytes)
    ensures RingsOk(NewSlot(e, name))
    ensures FifoOf(e.store, NewSlot(e, name)) == EMPTY_FIFO
    ensures forall p :: 0 <= p < 3 ==> Tags(NewSlot(e, name).rings[p]) == []
  {
  }

  /** Two engines that differ in one queue only. */
  lemma AbsUpdate(e: Engine, e1: Engine, name: Bytes)
    requires Mapped(e) && Mapped(e1)
    requires e1.index.Keys == e.index.Keys + {name} && |e1.slots| == |e.slots| && e1.over == e.over
    requires IsQueue(e1, name) && (name in e.index ==> IsQueue(e, name))
    requires forall n :: n in e.index && n != name ==> (IsQueue(e1, n) <==> IsQueue(e, n))
    requires forall n :: n in e.index && n != name && IsQueue(e, n) ==> ViewOf(e1, n) == ViewOf(e, n)
    ensures Abs(e1) == Abs(e).(queues := Abs(e).queues[name := ViewOf(e1, name)])
  {
    hide Mapped, ViewOf;
    var q1 := Abs(e).queues[name := ViewOf(e1, name)];
    assert Abs(e1).queues.Keys == q1.Keys;
    assert Abs(e1).queues == q1;
    assert Abs(e1).others == Abs(e).others;
  }

  // ---------------------------------------------------------------- changing one ring

  /** Replacing a ring keeps the map; the other rings keep their ready tags. */
  lemma SetRingKeepsMapped(e: Engine, name: Bytes, p: nat, r: Ring)
    requires Mapped(e) && IsQueue(e, name) && p < 3 && InRange(r)
    requires RingsOk(SlotOf(e, name).(rings := SlotOf(e, name).rings[p := r]))
    ensures var e1 := SetRing(e, e.index[name].offset, p, r);
      && Mapped(e1)
      && SlotOf(e1, name) == SlotOf(e, name).(rings := SlotOf(e, name).rings[p := r])
      && forall n :: n in e.index && n != name ==> SlotOf(e1, n) == SlotOf(e, n)
  {
    hide NameOk, RingsOk;
    var at := e.index[name].offset;
    var e1 := SetRing(e, at, p, r);
    assert SlotNames(e1.slots) == SlotNames(e.slots);
    forall n | n in e.index && n != name ensures e.index[n].offset != at {
      assert Offsets(e.index)[n] == e.index[n].offset;
      assert SlotNames(e.slots)[e.index[n].offset] == Some(n);
      assert SlotNames(e.slots)[at] == Some(name);
    }
  }

  /** The contents of the queue whose ring p was replaced. */
  lemma OwnFifo(e: Engine, name: Bytes, p: nat, r: Ring, store': map<Bytes, Bytes>)
    requires Mapped(e) && IsQueue(e, name) && p < 3 && InRange(r)
    requires RingsOk(SlotOf(e, name).(rings := SlotOf(e, name).rings[p := r]))
    requires forall q, t :: IsReady(e, name, q, t) && q != p ==>
               Lookup(store', ItemKey(name, q, t)) == Lookup(e.store, ItemKey(name, q, t))
    ensures var s := SlotOf(e, name); var f := FifoOf(e.store, s);
      FifoOf(store', s.(rings := s.rings[p := r])) == f.(ready := f.ready[p := Items(store', name, p, r)])
  {
    hide ItemKey, Lookup, Items, NameOk, IndexOk, SlotNames, Offsets, Tags;
    var s := SlotOf(e, name);
    forall q | 0 <= q < 3 && q != p ensures Items(store', name, q, s.rings[q]) == Items(e.store, name, q, s.rings[q]) {
      forall t | t in Tags(s.rings[q]) ensures Lookup(e.store, ItemKey(name, q, t)) == Lookup(store', ItemKey(name, q, t)) {
        assert IsReady(e, name, q, t);
      }
      SameItems(e.store, store', name, q, s.rings[q]);
    }
    var s1 := s.(rings := s.rings[p := r]);
    assert FifoOf(store', s1).ready == FifoOf(e.store, s).ready[p := Items(store', name, p, r)];
  }

  /** What a changed ring and a changed store give, when the other ready keys keep their values. */
  lemma SetRingRefines(e: Engine, name: Bytes, p: nat, r: Ring, store': map<Bytes, Bytes>)
    requires Mapped(e) && IsQueue(e, name) && p < 3 && InRange(r)
    requires RingsOk(SlotOf(e, name).(rings := SlotOf(e, name).rings[p := r]))
    requires forall n, q, t :: IsReady(e, n, q, t) && (n != name || q != p) ==>
               Lookup(store', ItemKey(n, q, t)) == Lookup(e.store, ItemKey(n, q, t))
    ensures var e1 := SetRing(e, e.index[name].offset, p, r).(store := store');
      && Mapped(e1)
      && (forall n, q, t :: IsReady(e1, n, q, t) && (n != name || q != p) ==> IsReady(e, n, q, t))
      && var f := ViewOf(e, name);
         Abs(e1) == Abs(e).(queues := Abs(e).queues[name := f.(ready := f.ready[p := Items(store', name, p, r)])])
  {
    hide ItemKey, Lookup, Items, NameOk, IndexOk, SlotNames, Offsets, Tags, FifoOf, RingsOk;
    SetRingKeepsMapped(e, name, p, r);
    var e0 := SetRing(e, e.index[name].offset, p, r);
    var e1 := e0.(store := store');
    MappedIgnoresStore(e0, store');
    forall n | IsQueue(e, n) && n != name
      ensures ViewOf(e1, n) == ViewOf(e, n)
    {
      SameFifo(e, store', n);
    }
    OwnFifo(e, name, p, r, store');
    AbsUpdate(e, e1, name);
  }

  lemma MappedIgnoresStore(e: Engine, store': map<Bytes, Bytes>)
    requires Mapped(e)
    ensures Mapped(e.(store := store'))
  {
  }
}
