/** The table index as an object, with the loops of hustdb.cpp over its mapped records. */
module TableEngine {
  import opened Bytes
  import opened SlotIndex
  import opened TableModel

  class TableIndex {
    const slots: array<TableStat>
    var index: map<Bytes, nat>

    ghost function State(): Tables
      reads this, slots
    {
      Tables(slots[..], index)
    }

    ghost predicate Valid()
      reads this, slots
    {
      slots.Length >= BASE && forall n :: n in index ==> index[n] < slots.Length
    }

    constructor (n: nat)
      requires n >= BASE
      ensures Valid() && fresh(slots) && index == map[] && slots.Length == n
      ensures forall i :: 0 <= i < n ==> slots[i] == FREE_TABLE
    {
      slots := new TableStat[n](i => FREE_TABLE);
      index := map[];
    }

    method FindTableOffset(name: Bytes, create: bool, kind: nat) returns (at: Option<nat>)
      requires Valid()
      modifies this`index, slots
      ensures Valid()
      ensures create ==> (State(), at) == FindOrCreateTable(old(State()), name, kind)
      ensures !create ==> State() == old(State()) && at == FindTable(State(), name, kind)
    {
      if name in index {
        if kind != COMMON_TB && slots[index[name]].kind != kind {
          return None;
        }
        return Some(index[name]);
      }
      if !create {
        return None;
      }
      var i := BASE;
      while i < slots.Length
        invariant BASE <= i <= slots.Length && State() == old(State())
        invariant forall j :: BASE <= j < i ==> !(slots[j].flag && slots[j].name == name)
      {
        if slots[i].flag && slots[i].name == name {
          FindNameIs(TableNames(slots[..]), name, BASE, i);
          return Some(i);
        }
        i := i + 1;
      }
      FindNameIs(TableNames(slots[..]), name, BASE, slots.Length);
      i := BASE;
      while i < slots.Length
        invariant BASE <= i <= slots.Length && State() == old(State())
        invariant forall j :: BASE <= j < i ==> slots[j].flag
      {
        if !slots[i].flag {
          FirstFreeIs(TableNames(slots[..]), BASE, i);
          slots[i] := FREE_TABLE.(flag := true, kind := kind, name := name);
          index := index[name := i];
          assert slots[..] == old(slots[..])[i := slots[i]];
          return Some(i);
        }
        i := i + 1;
      }
      FirstFreeIs(TableNames(slots[..]), BASE, slots.Length);
      return None;
    }

    method SetTableMeta(at: nat, count: int, size: int)
      requires Valid() && at < slots.Length
      modifies this`index, slots
      ensures Valid() && State() == SetMeta(old(State()), at, count, size)
    {
      hide Pages;
      slots[at] := slots[at].(count := slots[at].count + count);
      if size != 0 {
        var capacity := Pages(size);
        slots[at] := slots[at].(size := slots[at].size + size, capacity := slots[at].capacity + capacity);
        assert slots[..] == old(slots[..])[at := Charge(old(slots[at]), count, size)];
        if at >= BASE {
          var h := slots[HASH_TOTALS];
          slots[HASH_TOTALS] := h.(count := h.count + count, size := h.size + size, capacity := h.capacity + capacity);
        }
      }
      ghost var charged := slots[..];
      if slots[at].count <= 0 && at >= BASE {
        var name := slots[at].name;
        if name in index {
          index := index - {name};
          slots[at] := FREE_TABLE;
          assert slots[..] == charged[at := FREE_TABLE];
        }
      }
    }

    /** The loop of init_table_index. */
    method InitIndex()
      requires slots.Length >= BASE
      modifies this`index
      ensures Valid() && index == Rebuild(TableNames(slots[..]), BASE, slots.Length)
    {
      var names := TableNames(slots[..]);
      index := map[];
      var i := BASE;
      while i < slots.Length
        invariant BASE <= i <= slots.Length
        invariant names == TableNames(slots[..])
        invariant index == Rebuild(names, BASE, i) && forall n :: n in index ==> index[n] < i
      {
        if slots[i].flag && slots[i].name !in index {
          index := index[slots[i].name := i];
        }
        i := i + 1;
      }
    }
  }
}
