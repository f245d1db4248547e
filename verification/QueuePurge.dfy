/** Purging one priority, the settings, and the restart of the queue engine. */
module QueuePurge {
  import opened Bytes
  import opened QueueRing
  import opened QueueKeys
  import opened SlotIndex
  import opened QueueModel
  import opened QueueRefinement

  /** The keys of the ready items of a ring. */
  function ReadyKeys(name: Bytes, p: nat, r: Ring): set<Bytes>
    requires InRange(r)
  {
    set t | t in Tags(r) :: ItemKey(name, p, t)
  }

  /** The loop of hustmq_purge walks over exactly the ready tags, also across the wrap. */
  lemma PurgeKeysAreReady(name: Bytes, p: nat, r: Ring)
    requires InRange(r) && Size(r) <= MAX_ITEMS
    ensures PurgeKeys(name, p, r) == ReadyKeys(name, p, r)
  {
    hide ItemKey;
    RealItemExact(r);
    forall k: nat | k < Size(r) ensures PurgeTag(r, k) == Tags(r)[k] {
    }
    forall key ensures key in PurgeKeys(name, p, r) <==> key in ReadyKeys(name, p, r) {
      if key in PurgeKeys(name, p, r) {
        var k: nat :| k < RealItem(r.sp, r.ep) && key == ItemKey(name, p, PurgeTag(r, k));
        assert Tags(r)[k] in Tags(r);
      }
      if key in ReadyKeys(name, p, r) {
        var t :| t in Tags(r) && key == ItemKey(name, p, t);
        var k: nat :| k < |Tags(r)| && Tags(r)[k] == t;
        assert key == ItemKey(name, p, PurgeTag(r, k));
      }
    }
  }

  /** The keys of one ring are not keys of another. */
  lemma OtherKeys(e: Engine, name: Bytes, p: nat)
    requires Mapped(e) && IsQueue(e, name) && p < 3
    ensures forall n, q, t :: IsReady(e, n, q, t) && (n != name || q != p) ==>
              ItemKey(n, q, t) !in ReadyKeys(name, p, SlotOf(e, name).rings[p])
  {
    hide ItemKey, Tags, NameOk, IndexOk, SlotNames, Offsets;
    var r := SlotOf(e, name).rings[p];
    forall n, q, t | IsReady(e, n, q, t) && (n != name || q != p)
      ensures ItemKey(n, q, t) !in ReadyKeys(name, p, r)
    {
      if ItemKey(n, q, t) in ReadyKeys(name, p, r) {
        var u :| u in Tags(r) && ItemKey(n, q, t) == ItemKey(name, p, u);
        ItemKeyInjective(n, q, t, name, p, u);
      }
    }
  }

  /** Emptying a ring while others keep items. */
  lemma ClearRefines(e: Engine, name: Bytes, p: nat, stuck: set<Bytes>)
    requires Inv(e) && IsQueue(e, name) && p < 3
    ensures var r := SlotOf(e, name).rings[p]; var f := ViewOf(e, name);
      var e1 := SetRing(e, e.index[name].offset, p, EMPTY_RING).(store := e.store - (ReadyKeys(name, p, r) - stuck));
      Inv(e1) && Abs(e1) == Abs(e).(queues := Abs(e).queues[name := f.(ready := f.ready[p := []])])
  {
    hide ItemKey, Token, Items, NameOk, IndexOk, SlotNames, Offsets, ReadyKeys;
    var r := SlotOf(e, name).rings[p];
    var store' := e.store - (ReadyKeys(name, p, r) - stuck);
    OtherKeys(e, name, p);
    assert Items(store', name, p, EMPTY_RING) == [];
    SetRingRefines(e, name, p, EMPTY_RING, store');
    var e1 := SetRing(e, e.index[name].offset, p, EMPTY_RING).(store := store');
    forall n, q, t | IsReady(e1, n, q, t) ensures IsReady(e, n, q, t) && (n != name || q != p) {
    }
  }

  lemma FreeKeepsMapped(e: Engine, name: Bytes)
    requires Mapped(e) && IsQueue(e, name)
    ensures var e1 := e.(index := e.index - {name}, slots := e.slots[e.index[name].offset := FREE_SLOT]);
      && Mapped(e1)
      && forall n :: n in e1.index ==> SlotOf(e1, n) == SlotOf(e, n)
  {
    hide NameOk, RingsOk;
    var at := e.index[name].offset;
    var e1 := e.(index := e.index - {name}, slots := e.slots[at := FREE_SLOT]);
    FreeSlot(SlotNames(e.slots), 0, Offsets(e.index), name);
    assert SlotNames(e1.slots) == SlotNames(e.slots)[at := None];
    assert Offsets(e1.index) == Offsets(e.index) - {name};
    forall n | n in e1.index ensures e.index[n].offset != at {
      assert Offsets(e.index)[n] == e.index[n].offset;
      assert SlotNames(e.slots)[e.index[n].offset] == Some(n) && SlotNames(e.slots)[at] == Some(name);
    }
  }

  /** Freeing the slot of a queue together with the keys of its last ring. */
  lemma FreeRefines(e: Engine, name: Bytes, p: nat, stuck: set<Bytes>)
    requires Inv(e) && IsQueue(e, name) && p < 3
    ensures var r := SlotOf(e, name).rings[p];
      var e1 := e.(index := e.index - {name}, slots := e.slots[e.index[name].offset := FREE_SLOT],
                   store := e.store - (ReadyKeys(name, p, r) - stuck));
      Inv(e1) && Abs(e1) == Abs(e).(queues := Abs(e).queues - {name})
  {
    hide ItemKey, Items, NameOk, IndexOk, SlotNames, Offsets, ReadyKeys, Tags, FifoOf, RingsOk, InRange;
    var r := SlotOf(e, name).rings[p];
    assert InRange(r) by { RingsAre(e, name); }
    var e0 := e.(index := e.index - {name}, slots := e.slots[e.index[name].offset := FREE_SLOT]);
    var e1 := e0.(store := e.store - (ReadyKeys(name, p, r) - stuck));
    FreeKeepsMapped(e, name);
    MappedIgnoresStore(e0, e1.store);
    OtherKeys(e, name, p);
    forall n, q, t | IsReady(e1, n, q, t) ensures IsReady(e, n, q, t) && n != name {
    }
    forall n | IsQueue(e1, n) ensures IsQueue(e, n) && ViewOf(e1, n) == ViewOf(e, n) {
      SameFifo(e, e1.store, n);
    }
    assert Abs(e1).queues == Abs(e).queues - {name};
  }

  /** hustmq_purge: the keys of the ready items of that priority are deleted and no others,
      the other priorities keep their items, and the slot is freed exactly when they have none. */
  lemma PurgeRefines(e: Engine, name: Bytes, p: nat, stuck: set<Bytes>)
    requires Inv(e)
    ensures var (e1, code) := Purge(e, name, p, stuck); var (q1, spec) := SpecPurge(Abs(e), name, p);
      && Inv(e1) && Abs(e1) == q1 && code == spec
      && (code.Ok? ==> e1.store == e.store - (ReadyKeys(name, p, SlotOf(e, name).rings[p]) - stuck))
  {
    hide NameOk, PurgeKeys, ReadyKeys, Items, IndexOk, SlotNames, Offsets, ItemKey, Token;
    FindOk(e, name);
    if NameOk(name) && p <= 2 && IsQueue(e, name) {
      var s := SlotOf(e, name);
      RealIsCount(e.store, s);
      PurgeKeysAreReady(name, p, s.rings[p]);
      if Real(s) == RealItem(s.rings[p].sp, s.rings[p].ep) {
        FreeRefines(e, name, p, stuck);
      } else {
        ClearRefines(e, name, p, stuck);
      }
    }
  }

  // ---------------------------------------------------------------- settings and restart

  /** A slot that keeps its rings, name and kind. */
  lemma SettingsRefine(e: Engine, name: Bytes, s: Slot)
    requires Inv(e) && IsQueue(e, name) && s == SlotOf(e, name).(lock := s.lock, max := s.max)
    ensures var e1 := e.(slots := e.slots[e.index[name].offset := s]); var f := ViewOf(e, name);
      Inv(e1) && Abs(e1) == Abs(e).(queues := Abs(e).queues[name := f.(lock := s.lock, max := s.max)])
  {
    hide NameOk, IndexOk, Offsets, RingsOk, Items, ItemKey, Token, Tags;
    var at := e.index[name].offset;
    var e1 := e.(slots := e.slots[at := s]);
    assert SlotNames(e1.slots) == SlotNames(e.slots);
    SettingsKeepSlots(e, name, s);
    AbsUpdate(e, e1, name);
    forall n, q, t | IsReady(e1, n, q, t) ensures IsReady(e, n, q, t) {
    }
  }

  lemma SettingsKeepSlots(e: Engine, name: Bytes, s: Slot)
    requires Mapped(e) && IsQueue(e, name) && s == SlotOf(e, name).(lock := s.lock, max := s.max)
    ensures var e1 := e.(slots := e.slots[e.index[name].offset := s]);
      && Mapped(e1)
      && forall n :: n in e.index && n != name ==> SlotOf(e1, n) == SlotOf(e, n)
  {
    hide NameOk;
    var at := e.index[name].offset;
    var e1 := e.(slots := e.slots[at := s]);
    assert SlotNames(e1.slots) == SlotNames(e.slots);
    forall n | n in e.index && n != name ensures e.index[n].offset != at {
      assert Offsets(e.index)[n] == e.index[n].offset;
      assert SlotNames(e.slots)[e.index[n].offset] == Some(n) && SlotNames(e.slots)[at] == Some(name);
    }
  }

  lemma RestartKeepsMap(e: Engine)
    requires Mapped(e)
    ensures var e1 := Restart(e);
      && Offsets(e1.index) == Offsets(e.index) && e1.index.Keys == e.index.Keys
      && forall n :: n in e1.index ==>
           e1.index[n] == Info(e.index[n].offset, map[], [])
  {
    hide SlotOk, SlotNames;
    var e1 := Restart(e);
    var m := Rebuild(SlotNames(e.slots), 0, |e.slots|);
    RebuildRestores(SlotNames(e.slots), 0, Offsets(e.index));
    assert Offsets(e1.index) == m;
    assert e1.index.Keys == m.Keys && e.index.Keys == Offsets(e.index).Keys;
  }

  /** A restart rebuilds the identical name-to-slot map and keeps every queue's items. */
  lemma RestartRefines(e: Engine)
    requires Inv(e)
    ensures var e1 := Restart(e);
      && Inv(e1) && Abs(e1) == Abs(e)
      && Offsets(e1.index) == Offsets(e.index)
  {
    hide Restart, IndexOk, SlotNames, Offsets, NameOk, FifoOf, RingsOk, ItemKey, Token, Tags;
    var e1 := Restart(e);
    RestartKeepsMap(e);
    RestartKeepsRest(e);
    assert Mapped(e1);
    assert Abs(e1).queues == Abs(e).queues;
    forall n, q, t | IsReady(e1, n, q, t) ensures IsReady(e, n, q, t) {
    }
  }

  lemma RestartKeepsRest(e: Engine)
    ensures var e1 := Restart(e);
      e1.slots == e.slots && e1.store == e.store && e1.over == e.over
  {
  }
}
