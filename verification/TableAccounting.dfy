/** Accounting of tables over whole runs of hset, hdel and the set commands, which share the
    records and charge no size. */
module TableAccounting {
  import opened Bytes
  import opened SlotIndex
  import opened TableModel

  /** The tables and, for each, the size each live item was charged with. */
  datatype Ledger = Ledger(tables: Tables, contents: map<Bytes, map<Bytes, nat>>)

  // ---------------------------------------------------------------- sums

  function Part(s: TableStat, f: TableStat -> int): int {
    if s.flag && s.kind == HASH_TB then f(s) else 0
  }

  /** A sum over the hash tables. */
  function Sum(slots: seq<TableStat>, f: TableStat -> int, n: nat): int
    requires n <= |slots|
    decreases n
  {
    if n <= BASE then 0 else Sum(slots, f, n - 1) + Part(slots[n - 1], f)
  }

  /** How far the hash totals are from the sum over the hash tables. */
  function Drift(slots: seq<TableStat>, f: TableStat -> int): int
    requires BASE <= |slots|
  {
    f(slots[HASH_TOTALS]) - Sum(slots, f, |slots|)
  }

  lemma {:induction false} SumUpdate(slots: seq<TableStat>, f: TableStat -> int, n: nat, at: nat, s: TableStat)
    requires n <= |slots| && at < |slots|
    ensures Sum(slots[at := s], f, n) ==
            Sum(slots, f, n) + if BASE <= at < n then Part(s, f) - Part(slots[at], f) else 0
    decreases n
  {
    if n > BASE {
      SumUpdate(slots, f, n - 1, at, s);
    }
  }

  /** The sum of a value over the items of a table. */
  ghost function Total(items: map<Bytes, nat>, f: nat -> int): int
    decreases |items|
  {
    if items == map[] then 0
    else
      var k :| k in items;
      f(items[k]) + Total(items - {k}, f)
  }

  lemma {:induction false} TotalRemove(items: map<Bytes, nat>, f: nat -> int, k: Bytes)
    requires k in items
    ensures Total(items, f) == f(items[k]) + Total(items - {k}, f)
    decreases |items|
  {
    var c :| c in items && Total(items, f) == f(items[c]) + Total(items - {c}, f);
    if c != k {
      assert items - {c} - {k} == items - {k} - {c};
      TotalRemove(items - {c}, f, k);
      TotalRemove(items - {k}, f, c);
    }
  }

  lemma TotalInsert(items: map<Bytes, nat>, f: nat -> int, k: Bytes, v: nat)
    requires k !in items
    ensures Total(items[k := v], f) == f(v) + Total(items, f)
  {
    assert items[k := v] - {k} == items;
    TotalRemove(items[k := v], f, k);
  }

  function CountOf(s: TableStat): int { s.count }
  function SizeOf(s: TableStat): int { s.size }
  function CapacityOf(s: TableStat): int { s.capacity }
  function ItemSize(n: nat): int { n }
  function ItemPages(n: nat): int { Pages(n) }

  // ---------------------------------------------------------------- operations

  /** Items of hash tables have a size, those of sets and sorted sets are charged 0. */
  predicate Chargeable(kind: nat, size: nat) {
    (kind == HASH_TB && size > 0) || ((kind == SET_TB || kind == ZSET_TB) && size == 0)
  }

  /** hset, sadd and zadd: a new key charges its table; `size` is the length of key and value of
      a hash item, `fault` a refusal by the storage. The table exists from then on in either
      case. */
  function Add(s: Ledger, name: Bytes, kind: nat, key: Bytes, size: nat, fault: bool): Ledger
    requires BASE <= |s.tables.slots|
  {
    var (t, at) := FindOrCreateTable(s.tables, name, kind);
    if at.None? then s.(tables := t)
    else
      var items: map<Bytes, nat> := if name in s.contents then s.contents[name] else map[];
      if fault || key in items then Ledger(t, s.contents[name := items])
      else Ledger(SetMeta(t, at.value, 1, size), s.contents[name := items[key := size]])
  }

  /** hdel, srem and zrem: an existing key is credited with the size the storage reports. */
  function Remove(s: Ledger, name: Bytes, kind: nat, key: Bytes, reported: nat): Ledger
    requires BASE <= |s.tables.slots|
  {
    var at := FindTable(s.tables, name, kind);
    if at.None? || name !in s.contents || key !in s.contents[name] then s
    else
      var items := s.contents[name] - {key};
      Ledger(SetMeta(s.tables, at.value, -1, -(reported as int)),
             if items == map[] then s.contents - {name} else s.contents[name := items])
  }

  // ---------------------------------------------------------------- invariant

  function StatOf(s: Ledger, n: Bytes): TableStat
    requires n in s.tables.index && s.tables.index[n] < |s.tables.slots|
  {
    s.tables.slots[s.tables.index[n]]
  }

  ghost predicate Mapped(s: Ledger) {
    && BASE <= |s.tables.slots|
    && IndexOk(TableNames(s.tables.slots), BASE, s.tables.index)
    && s.contents.Keys == s.tables.index.Keys
    && (forall n :: n in s.tables.index ==> s.tables.index[n] < |s.tables.slots|)
  }

  predicate IsKind(kind: nat) {
    kind == HASH_TB || kind == SET_TB || kind == ZSET_TB
  }

  /** Each live table counts its items, and the totals count those of the hash tables. */
  ghost predicate CountsOk(s: Ledger) {
    && Mapped(s)
    && (forall n :: n in s.tables.index ==>
          IsKind(StatOf(s, n).kind) && StatOf(s, n).count == |s.contents[n]|)
    && Drift(s.tables.slots, CountOf) == 0
  }

  /** Each table's size and pages are those of its items, and the totals are the sums. */
  ghost predicate SizesOk(s: Ledger) {
    && CountsOk(s)
    && (forall n :: n in s.tables.index ==>
          && StatOf(s, n).size == Total(s.contents[n], ItemSize)
          && StatOf(s, n).capacity == Total(s.contents[n], ItemPages))
    && Drift(s.tables.slots, SizeOf) == 0
    && Drift(s.tables.slots, CapacityOf) == 0
  }

  lemma TableAt(s: Ledger, n: Bytes)
    requires Mapped(s) && n in s.tables.index
    ensures BASE <= s.tables.index[n] < |s.tables.slots| && StatOf(s, n).flag && StatOf(s, n).name == n
  {
  }

  lemma OtherTable(s: Ledger, n: Bytes, m: Bytes)
    requires Mapped(s) && n in s.tables.index && m in s.tables.index && n != m
    ensures s.tables.index[n] != s.tables.index[m]
  {
  }

  // ---------------------------------------------------------------- opening a table

  /** The ledger after a table was looked up for writing. */
  function Opened(s: Ledger, name: Bytes, kind: nat): Ledger
    requires BASE <= |s.tables.slots|
  {
    var (t, at) := FindOrCreateTable(s.tables, name, kind);
    if at.None? || name in s.contents then s.(tables := t) else Ledger(t, s.contents[name := map[]])
  }

  function Blank(name: Bytes, kind: nat): TableStat {
    FREE_TABLE.(flag := true, kind := kind, name := name)
  }

  lemma BlankNames(slots: seq<TableStat>, i: nat, name: Bytes, kind: nat)
    requires i < |slots|
    ensures TableNames(slots[i := Blank(name, kind)]) == TableNames(slots)[i := Some(name)]
  {
  }

  /** A table is there with its kind, cannot be opened, or is new and empty. */
  lemma OpenIs(s: Ledger, name: Bytes, kind: nat)
    requires Mapped(s) && kind != COMMON_TB
    ensures var s1 := Opened(s, name, kind); var at := FindOrCreateTable(s.tables, name, kind).1;
      && (name in s.tables.index ==> s1 == s && (at.Some? <==> StatOf(s, name).kind == kind))
      && (at.Some? && name in s.tables.index ==> at.value == s.tables.index[name])
      && (at.None? ==> s1 == s)
      && s1.tables == FindOrCreateTable(s.tables, name, kind).0
      && (name !in s.tables.index && at.Some? ==>
            && BASE <= at.value < |s.tables.slots| && TableNames(s.tables.slots)[at.value] == None
            && s1 == Ledger(Tables(s.tables.slots[at.value := Blank(name, kind)], s.tables.index[name := at.value]),
                            s.contents[name := map[]]))
  {
    hide TableNames, Blank;
    if name !in s.tables.index {
      assert FindName(TableNames(s.tables.slots), name, BASE) == |s.tables.slots|;
      assert FREE_TABLE.(flag := true, kind := kind, name := name) == Blank(name, kind) by { BlankIs(name, kind); }
    }
  }

  lemma BlankIs(name: Bytes, kind: nat)
    ensures Blank(name, kind) == FREE_TABLE.(flag := true, kind := kind, name := name)
  {
  }

  lemma NewKeepsMapped(s: Ledger, name: Bytes, kind: nat, at: nat)
    requires Mapped(s) && name !in s.tables.index && BASE <= at < |s.tables.slots| && TableNames(s.tables.slots)[at] == None
    ensures var s1 := Ledger(Tables(s.tables.slots[at := Blank(name, kind)], s.tables.index[name := at]), s.contents[name := map[]]);
      && Mapped(s1) && StatOf(s1, name) == Blank(name, kind)
      && forall m :: m in s.tables.index ==> StatOf(s1, m) == StatOf(s, m)
  {
    hide TableNames, Blank;
    BlankNames(s.tables.slots, at, name, kind);
    ClaimSlot(TableNames(s.tables.slots), BASE, s.tables.index, at, name);
    forall m | m in s.tables.index ensures s.tables.index[m] != at {
      assert TableNames(s.tables.slots)[s.tables.index[m]] == Some(m);
    }
  }

  lemma BlankDrift(slots: seq<TableStat>, at: nat, name: Bytes, kind: nat, f: TableStat -> int)
    requires BASE <= at < |slots| && !slots[at].flag && f(Blank(name, kind)) == 0
    ensures Drift(slots[at := Blank(name, kind)], f) == Drift(slots, f)
  {
    SumUpdate(slots, f, |slots|, at, Blank(name, kind));
  }

  ghost predicate SameDrift(s: Ledger, s1: Ledger) {
    && BASE <= |s.tables.slots| && BASE <= |s1.tables.slots|
    && Drift(s1.tables.slots, SizeOf) == Drift(s.tables.slots, SizeOf)
    && Drift(s1.tables.slots, CapacityOf) == Drift(s.tables.slots, CapacityOf)
  }

  lemma OpenKeeps(s: Ledger, name: Bytes, kind: nat)
    requires CountsOk(s) && IsKind(kind)
    ensures CountsOk(Opened(s, name, kind)) && (SizesOk(s) ==> SizesOk(Opened(s, name, kind)))
    ensures SameDrift(s, Opened(s, name, kind))
  {
    hide Sum, Drift, Total, IndexOk, FindOrCreateTable, Opened;
    OpenIs(s, name, kind);
    var at := FindOrCreateTable(s.tables, name, kind).1;
    if name !in s.tables.index && at.Some? {
      NewKeepsMapped(s, name, kind, at.value);
      BlankDrift(s.tables.slots, at.value, name, kind, CountOf);
      BlankDrift(s.tables.slots, at.value, name, kind, SizeOf);
      BlankDrift(s.tables.slots, at.value, name, kind, CapacityOf);
      EmptyTotals();
    }
  }

  lemma EmptyTotals()
    ensures Total(map[], ItemSize) == 0 && Total(map[], ItemPages) == 0
  {
  }

  // ---------------------------------------------------------------- charging a table

  /** The change of a record fits its kind. */
  predicate Fits(kind: nat, size: int) {
    kind == HASH_TB <==> size != 0
  }

  /** What set_table_meta does to the record and to the totals before an erasure. */
  function Charged(t: Tables, at: nat, count: int, size: int): Tables
    requires BASE <= at < |t.slots|
  {
    var one := t.slots[at := Charge(t.slots[at], count, size)];
    t.(slots := if size == 0 then one else one[HASH_TOTALS := Charge(t.slots[HASH_TOTALS], count, size)])
  }

  lemma SetMetaIsCharge(t: Tables, at: nat, count: int, size: int)
    requires BASE <= at < |t.slots| && t.slots[at].name in t.index
    ensures SetMeta(t, at, count, size) ==
      if t.slots[at].count + count > 0 then Charged(t, at, count, size)
      else Tables(Charged(t, at, count, size).slots[at := FREE_TABLE], t.index - {t.slots[at].name})
  {
    hide Pages;
  }

  /** Charging moves the record and the totals by the same amounts. */
  lemma ChargedDrift(t: Tables, at: nat, count: int, size: int)
    requires BASE <= at < |t.slots| && t.slots[at].flag && Fits(t.slots[at].kind, size)
    ensures var r := Charged(t, at, count, size).slots;
      && |r| == |t.slots|
      && Drift(r, CountOf) == Drift(t.slots, CountOf)
      && Drift(r, SizeOf) == Drift(t.slots, SizeOf)
      && Drift(r, CapacityOf) == Drift(t.slots, CapacityOf)
  {
    hide Sum, Pages;
    var n := |t.slots|;
    var charged := Charge(t.slots[at], count, size);
    var one := t.slots[at := charged];
    var totals := Charge(t.slots[HASH_TOTALS], count, size);
    SumUpdate(t.slots, CountOf, n, at, charged);
    SumUpdate(t.slots, SizeOf, n, at, charged);
    SumUpdate(t.slots, CapacityOf, n, at, charged);
    SumUpdate(one, CountOf, n, HASH_TOTALS, totals);
    SumUpdate(one, SizeOf, n, HASH_TOTALS, totals);
    SumUpdate(one, CapacityOf, n, HASH_TOTALS, totals);
  }

  /** Erasing a record takes its values out of the sums and leaves the totals. */
  lemma ErasedDrift(slots: seq<TableStat>, at: nat, f: TableStat -> int)
    requires BASE <= at < |slots|
    ensures Drift(slots[at := FREE_TABLE], f) == Drift(slots, f) + Part(slots[at], f)
  {
    SumUpdate(slots, f, |slots|, at, FREE_TABLE);
  }

  lemma ChargedKeepsNames(t: Tables, at: nat, count: int, size: int)
    requires BASE <= at < |t.slots|
    ensures var r := Charged(t, at, count, size);
      && r.index == t.index && |r.slots| == |t.slots|
      && TableNames(r.slots) == TableNames(t.slots)
      && (forall i :: BASE <= i < |t.slots| && i != at ==> r.slots[i] == t.slots[i])
      && r.slots[at] == Charge(t.slots[at], count, size)
  {
    hide Pages;
  }

  /** The items' totals moved by the charged amounts. */
  ghost predicate Moves(before: map<Bytes, nat>, after: map<Bytes, nat>, size: int) {
    && Total(after, ItemSize) == Total(before, ItemSize) + size
    && Total(after, ItemPages) == Total(before, ItemPages) + Pages(size)
  }

  /** A table that keeps items after a charge. */
  lemma ChargeKeeps(s: Ledger, name: Bytes, count: int, size: int, items: map<Bytes, nat>)
    requires CountsOk(s) && name in s.tables.index && Fits(StatOf(s, name).kind, size)
    requires |items| == |s.contents[name]| + count && |items| > 0
    ensures var s1 := Ledger(SetMeta(s.tables, s.tables.index[name], count, size), s.contents[name := items]);
      && CountsOk(s1) && SameDrift(s, s1)
      && (SizesOk(s) && Moves(s.contents[name], items, size) ==> SizesOk(s1))
  {
    hide Drift, Total, IndexOk, TableNames, SetMeta, Pages, Charged;
    TableAt(s, name);
    var at := s.tables.index[name];
    var s1 := Ledger(SetMeta(s.tables, at, count, size), s.contents[name := items]);
    SetMetaIsCharge(s.tables, at, count, size);
    ChargedDrift(s.tables, at, count, size);
    ChargedKeepsNames(s.tables, at, count, size);
    assert Mapped(s1);
    NoPages();
    forall m | m in s.tables.index && m != name ensures StatOf(s1, m) == StatOf(s, m) {
      TableAt(s, m);
      OtherTable(s, m, name);
    }
  }

  lemma NoPages()
    ensures Pages(0) == 0
  {
  }

  /** A table that loses its last item: it is erased; the totals drift by whatever size and pages
      a hash table had left. */
  lemma LastItem(s: Ledger, name: Bytes, size: int)
    requires CountsOk(s) && name in s.tables.index && Fits(StatOf(s, name).kind, size) && |s.contents[name]| == 1
    ensures var s1 := Ledger(SetMeta(s.tables, s.tables.index[name], -1, size), s.contents - {name});
      var left := Charge(StatOf(s, name), -1, size);
      && CountsOk(s1) && s1.tables.index == s.tables.index - {name}
      && (forall m :: m in s1.tables.index ==> StatOf(s1, m) == StatOf(s, m))
      && Drift(s1.tables.slots, SizeOf) == Drift(s.tables.slots, SizeOf) + Part(left, SizeOf)
      && Drift(s1.tables.slots, CapacityOf) == Drift(s.tables.slots, CapacityOf) + Part(left, CapacityOf)
  {
    hide Drift, SetMeta, Pages, Charged, IndexOk, TableNames;
    TableAt(s, name);
    var at := s.tables.index[name];
    SetMetaIsCharge(s.tables, at, -1, size);
    ChargedDrift(s.tables, at, -1, size);
    ChargedKeepsNames(s.tables, at, -1, size);
    var slots := Charged(s.tables, at, -1, size).slots;
    ErasedDrift(slots, at, CountOf);
    ErasedDrift(slots, at, SizeOf);
    ErasedDrift(slots, at, CapacityOf);
    FreeKeepsMapped(s, name, slots);
  }

  lemma NamesErased(slots: seq<TableStat>, at: nat)
    requires at < |slots|
    ensures TableNames(slots[at := FREE_TABLE]) == TableNames(slots)[at := None]
  {
  }

  /** Freeing the record of a table, when the other records stay. */
  lemma FreeKeepsMapped(s: Ledger, name: Bytes, slots: seq<TableStat>)
    requires Mapped(s) && name in s.tables.index
    requires |slots| == |s.tables.slots| && TableNames(slots) == TableNames(s.tables.slots)
    requires forall i :: BASE <= i < |slots| && i != s.tables.index[name] ==> slots[i] == s.tables.slots[i]
    ensures var s1 := Ledger(Tables(slots[s.tables.index[name] := FREE_TABLE], s.tables.index - {name}), s.contents - {name});
      && Mapped(s1)
      && (forall m :: m in s1.tables.index ==> StatOf(s1, m) == StatOf(s, m))
  {
    hide TableNames, IndexOk;
    var at := s.tables.index[name];
    TableAt(s, name);
    FreeSlot(TableNames(slots), BASE, s.tables.index, name);
    NamesErased(slots, at);
    forall m | m in s.tables.index && m != name ensures s.tables.index[m] != at && s.tables.index[m] >= BASE {
      TableAt(s, m);
      OtherTable(s, m, name);
    }
  }

  // ---------------------------------------------------------------- the two operations

  /** hset, sadd and zadd keep the counts, and the sizes where they were right. */
  lemma AddKeeps(s: Ledger, name: Bytes, kind: nat, key: Bytes, size: nat, fault: bool)
    requires CountsOk(s) && Chargeable(kind, size)
    ensures CountsOk(Add(s, name, kind, key, size, fault))
    ensures SizesOk(s) ==> SizesOk(Add(s, name, kind, key, size, fault))
    ensures SameDrift(s, Add(s, name, kind, key, size, fault))
  {
    hide CountsOk, SizesOk, SetMeta, FindOrCreateTable, Total, Pages, ItemSize, ItemPages;
    OpenFacts(s, name, kind);
    var s1 := Opened(s, name, kind);
    var at := FindOrCreateTable(s.tables, name, kind).1;
    if at.Some? && !fault && key !in s1.contents[name] {
      var items := s1.contents[name];
      TotalInsert(items, ItemSize, key, size);
      TotalInsert(items, ItemPages, key, size);
      ItemFacts(size);
      ChargeKeeps(s1, name, 1, size, items[key := size]);
      assert s1.contents[name := items[key := size]] == s.contents[name := items[key := size]];
    } else {
      assert name in s.contents ==> s.contents[name := s.contents[name]] == s.contents;
    }
  }

  lemma ItemFacts(n: nat)
    ensures ItemSize(n) == n && ItemPages(n) == Pages(n)
  {
  }

  lemma OpenFacts(s: Ledger, name: Bytes, kind: nat)
    requires CountsOk(s) && IsKind(kind)
    ensures var s1 := Opened(s, name, kind); var at := FindOrCreateTable(s.tables, name, kind).1;
      && CountsOk(s1) && (SizesOk(s) ==> SizesOk(s1)) && SameDrift(s, s1)
      && s1.contents.Keys == s1.tables.index.Keys
      && (at.Some? ==> name in s1.tables.index && at.value == s1.tables.index[name] < |s1.tables.slots|
                       && StatOf(s1, name).kind == kind)
      && (name in s.contents ==> s1.contents == s.contents)
      && (name !in s.contents && at.Some? ==> s1.contents == s.contents[name := map[]])
      && (at.None? ==> s1 == s)
      && s1.tables == FindOrCreateTable(s.tables, name, kind).0
      && s.contents.Keys == s.tables.index.Keys && BASE <= |s.tables.slots|
  {
    hide Drift, Total, FindOrCreateTable, Opened, IndexOk, TableNames;
    OpenKeeps(s, name, kind);
    OpenIs(s, name, kind);
  }

  lemma RemoveMoves(items: map<Bytes, nat>, key: Bytes)
    requires key in items
    ensures Moves(items, items - {key}, -(items[key] as int))
  {
    hide Total, Pages, ItemSize, ItemPages;
    TotalRemove(items, ItemSize, key);
    TotalRemove(items, ItemPages, key);
    ItemFacts(items[key]);
    PagesFacts(items[key]);
  }

  lemma LastItemSizes(s: Ledger, name: Bytes, size: int)
    requires SizesOk(s) && name in s.tables.index && Fits(StatOf(s, name).kind, size) && |s.contents[name]| == 1
    requires Moves(s.contents[name], map[], size)
    ensures SizesOk(Ledger(SetMeta(s.tables, s.tables.index[name], -1, size), s.contents - {name}))
  {
    hide Drift, Total, SetMeta, Pages, IndexOk, TableNames;
    LastItem(s, name, size);
    EmptyTotals();
    NoPages();
  }

  /** hdel, srem and zrem keep the counts, whatever size is reported; sizes stay right if the
      storage reports the size that was charged. */
  lemma RemoveKeeps(s: Ledger, name: Bytes, kind: nat, key: Bytes, reported: nat)
    requires CountsOk(s) && Chargeable(kind, reported)
    ensures CountsOk(Remove(s, name, kind, key, reported))
    ensures SizesOk(s) && Honest(s, OpRemove(name, kind, key, reported)) ==> SizesOk(Remove(s, name, kind, key, reported))
  {
    hide CountsOk, SizesOk, SetMeta, Remove, Moves, Charge, Total, Chargeable, Fits;
    assert IsKind(kind) by { ChargeableIs(kind, reported); }
    RemoveIs(s, name, kind, key, reported);
    if Has(s, name, kind, key) {
      var items := s.contents[name];
      LessByOne(items, key);
      assert Fits(kind, -(reported as int)) by { ChargeableIs(kind, reported); }
      if items - {key} == map[] {
        RemoveLast(s, name, key, reported);
      } else {
        RemoveSome(s, name, key, reported);
      }
    }
  }

  lemma ChargeableIs(kind: nat, size: nat)
    requires Chargeable(kind, size)
    ensures IsKind(kind) && Fits(kind, -(size as int))
  {
  }

  lemma RemoveLast(s: Ledger, name: Bytes, key: Bytes, reported: nat)
    requires CountsOk(s) && name in s.tables.index && name in s.contents && key in s.contents[name]
    requires |s.contents[name]| == 1 && Fits(StatOf(s, name).kind, -(reported as int))
    ensures var s1 := Ledger(SetMeta(s.tables, s.tables.index[name], -1, -(reported as int)), s.contents - {name});
      CountsOk(s1) && (SizesOk(s) && s.contents[name][key] == reported ==> SizesOk(s1))
  {
    hide CountsOk, SizesOk, SetMeta, Moves, Charge, Total, Fits;
    LastItem(s, name, -(reported as int));
    if SizesOk(s) && s.contents[name][key] == reported {
      RemoveMoves(s.contents[name], key);
      assert s.contents[name] - {key} == map[] by { OneLeft(s.contents[name], key); }
      LastItemSizes(s, name, -(reported as int));
    }
  }

  lemma OneLeft(items: map<Bytes, nat>, key: Bytes)
    requires key in items && |items| == 1
    ensures items - {key} == map[]
  {
    LessByOne(items, key);
  }

  lemma RemoveSome(s: Ledger, name: Bytes, key: Bytes, reported: nat)
    requires CountsOk(s) && name in s.tables.index && name in s.contents && key in s.contents[name]
    requires |s.contents[name] - {key}| > 0 && Fits(StatOf(s, name).kind, -(reported as int))
    ensures var less := s.contents[name] - {key};
      var s1 := Ledger(SetMeta(s.tables, s.tables.index[name], -1, -(reported as int)), s.contents[name := less]);
      CountsOk(s1) && (SizesOk(s) && s.contents[name][key] == reported ==> SizesOk(s1))
  {
    hide CountsOk, SizesOk, SetMeta, Moves, Charge, Total, Fits;
    var items := s.contents[name];
    LessByOne(items, key);
    if items[key] == reported { RemoveMoves(items, key); }
    ChargeKeeps(s, name, -1, -(reported as int), items - {key});
  }

  lemma LessByOne(items: map<Bytes, nat>, key: Bytes)
    requires key in items
    ensures |items - {key}| == |items| - 1 && (items - {key} != map[] ==> |items - {key}| > 0)
  {
  }

  /** The key is an item of a table of that kind. */
  predicate Has(s: Ledger, name: Bytes, kind: nat, key: Bytes) {
    && name in s.tables.index && s.tables.index[name] < |s.tables.slots| && StatOf(s, name).kind == kind
    && name in s.contents && key in s.contents[name]
  }

  lemma RemoveIs(s: Ledger, name: Bytes, kind: nat, key: Bytes, reported: nat)
    requires CountsOk(s) && IsKind(kind)
    ensures BASE <= |s.tables.slots| && s.contents.Keys == s.tables.index.Keys
    ensures !Has(s, name, kind, key) ==> Remove(s, name, kind, key, reported) == s
    ensures Has(s, name, kind, key) ==>
      var items := s.contents[name] - {key};
      Remove(s, name, kind, key, reported) ==
      Ledger(SetMeta(s.tables, s.tables.index[name], -1, -(reported as int)),
             if items == map[] then s.contents - {name} else s.contents[name := items])
  {
    hide IndexOk, TableNames, SetMeta, Drift;
  }

  lemma OneItem(items: map<Bytes, nat>, key: Bytes)
    requires items.Keys == {key}
    ensures |items| == 1 && items - {key} == map[]
  {
    assert |items.Keys| == 1;
  }

  lemma RecordInUse(s: Ledger, name: Bytes)
    requires CountsOk(s) && name in s.tables.index
    ensures StatOf(s, name).flag
  {
    TableAt(s, name);
  }

  /** Erasing a hash table with its last item leaves the totals as far from the sums as they were
      exactly when the reported size is all the size, and its pages all the pages, the table
      still has on record. */
  lemma EraseExact(s: Ledger, name: Bytes, key: Bytes, reported: nat)
    requires CountsOk(s) && reported > 0 && name in s.contents && s.contents[name].Keys == {key}
    requires name in s.tables.index && s.tables.index[name] < |s.tables.slots| && StatOf(s, name).kind == HASH_TB
    ensures var s1 := Remove(s, name, HASH_TB, key, reported);
      && name !in s1.tables.index && BASE <= |s1.tables.slots|
      && Drift(s1.tables.slots, SizeOf) == Drift(s.tables.slots, SizeOf) + StatOf(s, name).size - reported
      && Drift(s1.tables.slots, CapacityOf) == Drift(s.tables.slots, CapacityOf) + StatOf(s, name).capacity - Pages(reported)
      && (Drift(s.tables.slots, SizeOf) == 0 ==>
            (Drift(s1.tables.slots, SizeOf) == 0 <==> reported == StatOf(s, name).size))
      && (Drift(s.tables.slots, CapacityOf) == 0 ==>
            (Drift(s1.tables.slots, CapacityOf) == 0 <==> Pages(reported) == StatOf(s, name).capacity))
  {
    hide CountsOk, Drift, SetMeta, Pages, Remove;
    OneItem(s.contents[name], key);
    RemoveIs(s, name, HASH_TB, key, reported);
    assert StatOf(s, name).flag by { RecordInUse(s, name); }
    LastItem(s, name, -(reported as int));
    PagesFacts(reported);
  }

  // ---------------------------------------------------------------- runs

  datatype TableOp =
    | OpAdd(name: Bytes, kind: nat, key: Bytes, size: nat, fault: bool)
    | OpRemove(name: Bytes, kind: nat, key: Bytes, reported: nat)

  function TableStep(s: Ledger, op: TableOp): (r: Ledger)
    requires BASE <= |s.tables.slots|
    ensures |r.tables.slots| == |s.tables.slots|
  {
    match op
    case OpAdd(name, kind, key, size, fault) => Add(s, name, kind, key, size, fault)
    case OpRemove(name, kind, key, reported) => Remove(s, name, kind, key, reported)
  }

  /** Hash items are not empty, the others are charged nothing. */
  predicate OpOk(op: TableOp) {
    Chargeable(op.kind, if op.OpAdd? then op.size else op.reported)
  }

  /** The storage reports the size the key was charged with. */
  predicate Honest(s: Ledger, op: TableOp) {
    op.OpRemove? && op.name in s.contents && op.key in s.contents[op.name] ==>
      s.contents[op.name][op.key] == op.reported
  }

  function TableRun(s: Ledger, ops: seq<TableOp>): (r: Ledger)
    requires BASE <= |s.tables.slots|
    decreases |ops|
  {
    if ops == [] then s else TableRun(TableStep(s, ops[0]), ops[1..])
  }

  predicate HonestRun(s: Ledger, ops: seq<TableOp>)
    requires BASE <= |s.tables.slots|
    decreases |ops|
  {
    ops == [] || (Honest(s, ops[0]) && HonestRun(TableStep(s, ops[0]), ops[1..]))
  }

  lemma LedgerFacts(s: Ledger)
    requires CountsOk(s)
    ensures BASE <= |s.tables.slots| && s.contents.Keys == s.tables.index.Keys
  {
  }

  /** After every run over hash tables, sets and sorted sets the count of the hash totals is the
      sum over the hash tables, although tables are erased and created on the way; if deletes
      report what inserts charged, the sizes and pages of every table and of the totals are
      exact too. */
  lemma {:induction false} TotalsAreSums(s: Ledger, ops: seq<TableOp>)
    requires CountsOk(s) && forall i :: 0 <= i < |ops| ==> OpOk(ops[i])
    ensures BASE <= |s.tables.slots|
    ensures CountsOk(TableRun(s, ops))
    ensures SizesOk(s) && HonestRun(s, ops) ==> SizesOk(TableRun(s, ops))
    decreases |ops|
  {
    hide CountsOk, SizesOk, Add, Remove;
    LedgerFacts(s);
    if ops != [] {
      match ops[0] {
        case OpAdd(name, kind, key, size, fault) => AddKeeps(s, name, kind, key, size, fault);
        case OpRemove(name, kind, key, reported) => RemoveKeeps(s, name, kind, key, reported);
      }
      TotalsAreSums(TableStep(s, ops[0]), ops[1..]);
    }
  }

  /** The operation erases a hash table with its last item. */
  predicate Erases(s: Ledger, op: TableOp) {
    && op.OpRemove? && op.kind == HASH_TB && Has(s, op.name, HASH_TB, op.key)
    && s.contents[op.name].Keys == {op.key}
  }

  /** What an erasure leaves in the totals. */
  function LeftSize(s: Ledger, op: TableOp): int {
    if Erases(s, op) then StatOf(s, op.name).size - op.reported else 0
  }

  function LeftPages(s: Ledger, op: TableOp): int {
    if Erases(s, op) then StatOf(s, op.name).capacity - Pages(op.reported) else 0
  }

  /** A removal that does not erase a hash table moves record and totals alike. */
  lemma RemoveDrift(s: Ledger, op: TableOp)
    requires CountsOk(s) && OpOk(op) && op.OpRemove? && !Erases(s, op)
    ensures BASE <= |s.tables.slots| && SameDrift(s, Remove(s, op.name, op.kind, op.key, op.reported))
  {
    hide CountsOk, SizesOk, Remove, Drift, SetMeta, Pages;
    LedgerFacts(s);
    RemoveIs(s, op.name, op.kind, op.key, op.reported);
    if Has(s, op.name, op.kind, op.key) {
      var items := s.contents[op.name];
      LessByOne(items, op.key);
      if items - {op.key} == map[] {
        KeysLeft(items, op.key);
        LastItem(s, op.name, 0);
      } else {
        hide SameDrift;
        ChargeKeeps(s, op.name, -1, -(op.reported as int), items - {op.key});
      }
    }
  }

  lemma StepDrift(s: Ledger, op: TableOp)
    requires CountsOk(s) && OpOk(op)
    ensures BASE <= |s.tables.slots|
    ensures var s1 := TableStep(s, op);
      && Drift(s1.tables.slots, SizeOf) == Drift(s.tables.slots, SizeOf) + LeftSize(s, op)
      && Drift(s1.tables.slots, CapacityOf) == Drift(s.tables.slots, CapacityOf) + LeftPages(s, op)
  {
    hide CountsOk, SizesOk, Add, Remove, Drift, Pages;
    LedgerFacts(s);
    if op.OpAdd? {
      AddKeeps(s, op.name, op.kind, op.key, op.size, op.fault);
    } else if Erases(s, op) {
      EraseExact(s, op.name, op.key, op.reported);
    } else {
      RemoveDrift(s, op);
    }
  }

  lemma KeysLeft(items: map<Bytes, nat>, key: Bytes)
    requires key in items && items - {key} == map[]
    ensures items.Keys == {key}
  {
    forall k | k in items ensures k == key {
      assert k != key ==> k in items - {key};
    }
  }

  function LeftSizes(s: Ledger, ops: seq<TableOp>): int
    requires BASE <= |s.tables.slots|
    decreases |ops|
  {
    if ops == [] then 0 else LeftSize(s, ops[0]) + LeftSizes(TableStep(s, ops[0]), ops[1..])
  }

  function LeftPagesSum(s: Ledger, ops: seq<TableOp>): int
    requires BASE <= |s.tables.slots|
    decreases |ops|
  {
    if ops == [] then 0 else LeftPages(s, ops[0]) + LeftPagesSum(TableStep(s, ops[0]), ops[1..])
  }

  /** Over every run the size and page totals are off by exactly what the erased hash tables had
      left: they are right if and only if that adds up to nothing. */
  lemma {:induction false} RunDrift(s: Ledger, ops: seq<TableOp>)
    requires CountsOk(s) && forall i :: 0 <= i < |ops| ==> OpOk(ops[i])
    ensures BASE <= |s.tables.slots|
    ensures var r := TableRun(s, ops).tables.slots;
      && BASE <= |r|
      && Drift(r, SizeOf) == Drift(s.tables.slots, SizeOf) + LeftSizes(s, ops)
      && Drift(r, CapacityOf) == Drift(s.tables.slots, CapacityOf) + LeftPagesSum(s, ops)
    decreases |ops|
  {
    hide CountsOk, SizesOk, Add, Remove, Drift, LeftSize, LeftPages, OpOk;
    LedgerFacts(s);
    if ops != [] {
      StepDrift(s, ops[0]);
      StepCountsOk(s, ops[0]);
      RunDrift(TableStep(s, ops[0]), ops[1..]);
    }
  }

  lemma StepCountsOk(s: Ledger, op: TableOp)
    requires CountsOk(s) && OpOk(op)
    ensures BASE <= |s.tables.slots| && CountsOk(TableStep(s, op))
  {
    hide CountsOk, SizesOk, Add, Remove;
    LedgerFacts(s);
    match op
    case OpAdd(name, kind, key, size, fault) => AddKeeps(s, name, kind, key, size, fault);
    case OpRemove(name, kind, key, reported) => RemoveKeeps(s, name, kind, key, reported);
  }

  /** After every run the records in use have distinct names and a restart finds the same map. */
  lemma RestartAfterRun(s: Ledger, ops: seq<TableOp>)
    requires CountsOk(s) && forall i :: 0 <= i < |ops| ==> OpOk(ops[i])
    ensures BASE <= |s.tables.slots|
    ensures var t := TableRun(s, ops).tables;
      Rebuild(TableNames(t.slots), BASE, |t.slots|) == t.index
  {
    hide TableRun, OpOk, TableNames, Drift;
    TotalsAreSums(s, ops);
    var t := TableRun(s, ops).tables;
    RebuildRestores(TableNames(t.slots), BASE, t.index);
  }

  lemma {:induction false} TotalPages(items: map<Bytes, nat>)
    ensures Total(items, ItemPages) % PAGE == 0 && 0 <= Total(items, ItemSize) <= Total(items, ItemPages)
    decreases |items|
  {
    hide Pages, Total;
    EmptyTotals();
    if items != map[] {
      var k :| k in items;
      TotalRemove(items, ItemPages, k);
      TotalRemove(items, ItemSize, k);
      PagesFacts(items[k]);
      TotalPages(items - {k});
    }
  }

  /** Whole pages, and at least the size. */
  predicate PagesHold(t: TableStat) {
    t.capacity % PAGE == 0 && 0 <= t.size <= t.capacity
  }

  /** Capacities are whole pages and never smaller than the sizes. */
  lemma CapacityHoldsSize(s: Ledger, name: Bytes)
    requires SizesOk(s) && name in s.tables.index
    ensures PagesHold(StatOf(s, name))
  {
    hide Total, Drift, IndexOk, TableNames;
    TotalPages(s.contents[name]);
  }

  lemma {:induction false} SumsHold(slots: seq<TableStat>, n: nat)
    requires n <= |slots| && forall i :: BASE <= i < n && slots[i].flag ==> PagesHold(slots[i])
    ensures Sum(slots, CapacityOf, n) % PAGE == 0 && 0 <= Sum(slots, SizeOf, n) <= Sum(slots, CapacityOf, n)
    decreases n
  {
    if n > BASE {
      SumsHold(slots, n - 1);
    }
  }

  /** The totals are whole pages too and never smaller than the total size. */
  lemma TotalsHoldPages(s: Ledger)
    requires SizesOk(s)
    ensures PagesHold(s.tables.slots[HASH_TOTALS])
  {
    hide Sum, Total;
    var slots := s.tables.slots;
    forall i | BASE <= i < |slots| && slots[i].flag ensures PagesHold(slots[i]) {
      var name := slots[i].name;
      assert TableNames(slots)[i] == Some(name);
      assert name in s.tables.index && s.tables.index[name] == i;
      CapacityHoldsSize(s, name);
    }
    SumsHold(slots, |slots|);
  }

  /** After every run in which deletes report what inserts charged, the hash totals are the sums
      over the hash tables, in whole pages that hold the sizes. */
  lemma RunTotals(s: Ledger, ops: seq<TableOp>)
    requires SizesOk(s) && (forall i :: 0 <= i < |ops| ==> OpOk(ops[i])) && HonestRun(s, ops)
    ensures var r := TableRun(s, ops);
      && SizesOk(r) && PagesHold(r.tables.slots[HASH_TOTALS])
      && forall n :: n in r.tables.index ==> PagesHold(StatOf(r, n))
  {
    hide Drift, Total, TableRun, OpOk, IndexOk, TableNames;
    TotalsAreSums(s, ops);
    var r := TableRun(s, ops);
    TotalsHoldPages(r);
    forall n | n in r.tables.index ensures PagesHold(StatOf(r, n)) {
      CapacityHoldsSize(r, n);
    }
  }

  // ---------------------------------------------------------------- an overwritten item

  /** Three records, no tables. */
  const EMPTY_LEDGER: Ledger := Ledger(Tables([FREE_TABLE, FREE_TABLE, FREE_TABLE], map[]), map[])

  lemma EmptyLedgerOk()
    ensures SizesOk(EMPTY_LEDGER)
  {
    assert Sum(EMPTY_LEDGER.tables.slots, CountOf, 3) == 0;
    assert Sum(EMPTY_LEDGER.tables.slots, SizeOf, 3) == 0;
    assert Sum(EMPTY_LEDGER.tables.slots, CapacityOf, 3) == 0;
  }

  /** The table after its first item. */
  lemma FirstItem(name: Bytes, key: Bytes, size: nat)
    requires size > 0
    ensures var s := Add(EMPTY_LEDGER, name, HASH_TB, key, size, false);
      && SizesOk(s) && name in s.contents && s.contents[name] == map[key := size] && name in s.tables.index
      && s.tables.index[name] < |s.tables.slots| && s.contents[name].Keys == {key}
      && StatOf(s, name).kind == HASH_TB && StatOf(s, name).size == size
  {
    hide Total, Pages, Sum, Drift;
    EmptyLedgerOk();
    AddKeeps(EMPTY_LEDGER, name, HASH_TB, key, size, false);
    var slots := EMPTY_LEDGER.tables.slots;
    assert TableNames(slots) == [None, None, None];
    assert FindName(TableNames(slots), name, BASE) == 3 && FirstFree(TableNames(slots), BASE) == 2;
    var none: map<Bytes, nat> := map[];
    assert none[key := size] == map[key := size];
  }

  /** An item of one length, overwritten by one of another and deleted: the table is gone and the
      totals keep the difference. */
  lemma OverwriteDrifts(name: Bytes, key: Bytes, x: nat, y: nat)
    requires x > 0 && y > 0
    ensures var ops := [OpAdd(name, HASH_TB, key, x, false), OpAdd(name, HASH_TB, key, y, false), OpRemove(name, HASH_TB, key, y)];
      var s := TableRun(EMPTY_LEDGER, ops);
      name !in s.tables.index && BASE <= |s.tables.slots| && Drift(s.tables.slots, SizeOf) == x - y
  {
    hide Drift, Remove, SetMeta, Total, CountsOk;
    FirstItem(name, key, x);
    var s := Add(EMPTY_LEDGER, name, HASH_TB, key, x, false);
    assert Add(s, name, HASH_TB, key, y, false) == s by {
      assert s.contents[name := s.contents[name]] == s.contents;
    }
    EraseExact(s, name, key, y);
    var ops := [OpAdd(name, HASH_TB, key, x, false), OpAdd(name, HASH_TB, key, y, false), OpRemove(name, HASH_TB, key, y)];
    assert ops[1..][1..] == [ops[2]] && ops[1..][0] == ops[1] && [ops[2]][1..] == [];
    assert TableRun(s, [ops[2]]) == Remove(s, name, HASH_TB, key, y);
    assert TableRun(s, ops[1..]) == TableRun(s, [ops[2]]);
  }

  // ---------------------------------------------------------------- a late charge

  /** The record a charge finds is a hash table in use. */
  predicate Live(t: TableStat) {
    t.flag && t.kind == HASH_TB
  }

  /** The charge ends with the erasure of the record. */
  predicate EndsEmpty(t: Tables, at: nat, count: int)
    requires at < |t.slots|
  {
    t.slots[at].count + count <= 0 && t.slots[at].name in t.index
  }

  /** The totals of a value keep up with the hash tables when they move by `total`, the record
      by `own`, and the record held `held` before. */
  predicate Levels(t: Tables, at: nat, count: int, total: int, own: int, held: int)
    requires at < |t.slots|
  {
    if !Live(t.slots[at]) then total == 0
    else if EndsEmpty(t, at, count) then held + total == 0
    else total == own
  }

  lemma LateDrift(t: Tables, at: nat, count: int, size: int, f: TableStat -> int)
    requires BASE <= at < |t.slots| && f(FREE_TABLE) == 0
    ensures var r := SetMeta(t, at, count, size);
      var total := if size == 0 then 0 else f(Charge(t.slots[HASH_TOTALS], count, size)) - f(t.slots[HASH_TOTALS]);
      var own := f(Charge(t.slots[at], count, size)) - f(t.slots[at]);
      Drift(r.slots, f) == Drift(t.slots, f) <==> Levels(t, at, count, total, own, f(t.slots[at]))
  {
    hide Sum, Pages;
    var n := |t.slots|;
    var charged := Charge(t.slots[at], count, size);
    var one := t.slots[at := charged];
    var totals := Charge(t.slots[HASH_TOTALS], count, size);
    var both := one[HASH_TOTALS := totals];
    SumUpdate(t.slots, f, n, at, charged);
    SumUpdate(one, f, n, HASH_TOTALS, totals);
    SumUpdate(both, f, n, at, FREE_TABLE);
    SumUpdate(one, f, n, at, FREE_TABLE);
  }

  /** Looking a table up, storing the item and charging the record are separate steps of a
      handler. Whatever the record has become meanwhile, the charge keeps the totals in step
      exactly as follows. A hash charge (a size other than 0) needs a hash table in use that is
      not erased with something left. A set charge (size 0) never moves the totals, so on a
      record that a hash table took over it must not move a count either. */
  lemma LateChargeExact(t: Tables, at: nat, count: int, size: int)
    requires BASE <= at < |t.slots|
    ensures var r := SetMeta(t, at, count, size).slots; var was := t.slots[at];
      && (Drift(r, CountOf) == Drift(t.slots, CountOf) <==>
            Levels(t, at, count, if size == 0 then 0 else count, count, was.count))
      && (Drift(r, SizeOf) == Drift(t.slots, SizeOf) <==> Levels(t, at, count, size, size, was.size))
      && (Drift(r, CapacityOf) == Drift(t.slots, CapacityOf) <==>
            Levels(t, at, count, Pages(size), Pages(size), was.capacity))
  {
    hide Sum, Drift, SetMeta, Pages;
    assert Pages(0) == 0 by { NoPages(); }
    LateDrift(t, at, count, size, CountOf);
    LateDrift(t, at, count, size, SizeOf);
    LateDrift(t, at, count, size, CapacityOf);
  }

  /** A handler has looked up the table of an hset; another one deletes the only item and erases
      the table; the charge then goes to a record that is not in use: the item is stored, its
      table is not known, and the totals count it. */
  lemma EraseRace(name: Bytes, key: Bytes, x: nat, y: nat)
    requires x > 0 && y > 0
    ensures var t := Add(EMPTY_LEDGER, name, HASH_TB, key, x, false).tables;
      var at := FindTable(t, name, HASH_TB);
      && at.Some? && BASE <= at.value < |t.slots|
      && var erased := SetMeta(t, at.value, -1, -(x as int));
         var charged := SetMeta(erased, at.value, 1, y);
         && name !in charged.index && !charged.slots[at.value].flag
         && Drift(charged.slots, CountOf) != Drift(erased.slots, CountOf)
  {
    FirstItem(name, key, x);
    hide Drift, Pages, Total, Add, Sum;
    var s := Add(EMPTY_LEDGER, name, HASH_TB, key, x, false);
    var t := s.tables;
    TableAt(s, name);
    var at := t.index[name];
    SetMetaIsCharge(t, at, -1, -(x as int));
    var erased := SetMeta(t, at, -1, -(x as int));
    assert erased.slots[at] == FREE_TABLE;
    LateChargeExact(erased, at, 1, y);
  }

  lemma OneMember(name: Bytes, member: Bytes)
    ensures var s := Add(EMPTY_LEDGER, name, SET_TB, member, 0, false);
      Remove(s, name, SET_TB, member, 0) == EMPTY_LEDGER
  {
    hide Pages;
    var slots := EMPTY_LEDGER.tables.slots;
    assert TableNames(slots) == [None, None, None];
    assert FindName(TableNames(slots), name, BASE) == 3 && FirstFree(TableNames(slots), BASE) == 2;
    var s := Add(EMPTY_LEDGER, name, SET_TB, member, 0, false);
    var none: map<Bytes, nat> := map[];
    assert none[member := 0] - {member} == none;
    var r := Remove(s, name, SET_TB, member, 0);
    assert r.tables.slots == slots;
    assert r.tables.index == map[] && r.contents == map[];
  }

  /** A handler has looked up the table of an sadd; the set loses its only member and a hash table
      takes over the record; the charge then counts one more item of the hash table, and the
      totals do not. */
  lemma ReuseRace(name: Bytes, member: Bytes, other: Bytes, key: Bytes, x: nat)
    requires x > 0
    ensures var set0 := Add(EMPTY_LEDGER, name, SET_TB, member, 0, false);
      var at := FindTable(set0.tables, name, SET_TB);
      var t := Add(Remove(set0, name, SET_TB, member, 0), other, HASH_TB, key, x, false).tables;
      && at == FindTable(t, other, HASH_TB) == Some(BASE) && |t.slots| == 3
      && var charged := SetMeta(t, BASE, 1, 0);
         charged.slots[BASE].count == 2 && Drift(charged.slots, CountOf) != Drift(t.slots, CountOf)
  {
    OneMember(name, member);
    FirstItem(other, key, x);
    hide Drift, Pages, Sum;
    var slots := EMPTY_LEDGER.tables.slots;
    assert TableNames(slots) == [None, None, None];
    assert FirstFree(TableNames(slots), BASE) == 2;
    assert FindName(TableNames(slots), name, BASE) == 3 && FindName(TableNames(slots), other, BASE) == 3;
    var t := Add(EMPTY_LEDGER, other, HASH_TB, key, x, false).tables;
    LateChargeExact(t, BASE, 1, 0);
  }
}
