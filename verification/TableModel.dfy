/** The table index of hustdb.cpp: named table records with item counts and sizes, the
    totals of all hash tables in record 1, and the map from names to records. */
module TableModel {
  import opened Bytes
  import opened SlotIndex

  const PAGE: nat := 1024
  const BASE: nat := 2
  const HASH_TOTALS: nat := 1
  const COMMON_TB: nat := 4
  const HASH_TB: nat := 33
  const SET_TB: nat := 35
  const ZSET_TB: nat := 124

  datatype TableStat = TableStat(count: int, size: int, capacity: int, flag: bool, kind: nat, name: Bytes)

  const FREE_TABLE: TableStat := TableStat(0, 0, 0, false, 0, [])

  datatype Tables = Tables(slots: seq<TableStat>, index: map<Bytes, nat>)

  function TableNames(slots: seq<TableStat>): (names: Names)
    ensures |names| == |slots|
  {
    seq(|slots|, i requires 0 <= i < |slots| => if slots[i].flag then Some(slots[i].name) else None)
  }

  /** find_table_offset without creation. */
  function FindTable(t: Tables, name: Bytes, kind: nat): (at: Option<nat>)
    ensures at.Some? ==> name in t.index && at.value == t.index[name] < |t.slots|
  {
    if name in t.index && t.index[name] < |t.slots| && (kind == COMMON_TB || t.slots[t.index[name]].kind == kind)
    then Some(t.index[name]) else None
  }

  /** find_table_offset with creation in the first free record from number 2 on. */
  function FindOrCreateTable(t: Tables, name: Bytes, kind: nat): (r: (Tables, Option<nat>))
    requires BASE <= |t.slots|
    ensures r.1.Some? ==> r.1.value < |r.0.slots|
    ensures |r.0.slots| == |t.slots|
  {
    if name in t.index then (t, FindTable(t, name, kind))
    else
      var named := FindName(TableNames(t.slots), name, BASE);
      if named < |t.slots| then (t, Some(named))
      else
        var i := FirstFree(TableNames(t.slots), BASE);
        if i == |t.slots| then (t, None)
        else
          (Tables(t.slots[i := FREE_TABLE.(flag := true, kind := kind, name := name)], t.index[name := i]), Some(i))
  }

  /** The pages a change of size moves, with its sign. */
  function Pages(size: int): int {
    var abs := if size < 0 then -size else size;
    (abs / PAGE + if abs % PAGE > 0 then 1 else 0) * PAGE * (if size > 0 then 1 else -1)
  }

  function Charge(s: TableStat, count: int, size: int): TableStat {
    if size == 0 then s.(count := s.count + count)
    else s.(count := s.count + count, size := s.size + size, capacity := s.capacity + Pages(size))
  }

  /** The erasure at the end of set_table_meta: a named table without items. */
  function EraseIfEmpty(t: Tables, at: nat): Tables
    requires at < |t.slots|
  {
    if t.slots[at].count <= 0 && at >= BASE && t.slots[at].name in t.index
    then Tables(t.slots[at := FREE_TABLE], t.index - {t.slots[at].name})
    else t
  }

  /** set_table_meta: the hash totals move along only when the size changes. */
  function SetMeta(t: Tables, at: nat, count: int, size: int): (r: Tables)
    requires BASE <= |t.slots| && at < |t.slots|
    ensures |r.slots| == |t.slots|
  {
    var one := t.slots[at := Charge(t.slots[at], count, size)];
    var both := if size != 0 && at >= BASE
                then one[HASH_TOTALS := Charge(one[HASH_TOTALS], count, size)] else one;
    EraseIfEmpty(Tables(both, t.index), at)
  }

  lemma PagesFacts(size: int)
    requires size >= 0
    ensures Pages(-size) == -Pages(size)
    ensures Pages(size) % 1024 == 0 && size <= Pages(size) < size + 1024
  {
  }
}
