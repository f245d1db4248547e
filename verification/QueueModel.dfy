/** Storage keys of queue items: "<queue>|<priority>:<tag>". */
module QueueKeys {
  import opened Bytes
  import opened Decimal
  import opened Letters

  predicate NameByte(c: byte) {
    || IsDigit(c)
    || 'a' as int <= c <= 'z' as int
    || 'A' as int <= c <= 'Z' as int
    || c == '_' as int || c == COLON || c == '.' as int
  }

  /** tb_name_check. */
  predicate NameOk(name: Bytes) {
    0 < |name| <= 64 && forall i :: 0 <= i < |name| ==> NameByte(name[i])
  }

  /** A name has 1 to 64 of these characters. */
  lemma NameExact(name: Bytes)
    ensures NameOk(name) <==>
      1 <= |name| <= 64 && forall i :: 0 <= i < |name| ==> name[i] as char in NUMERALS + LOWER + UPPER + "_:."
  {
    hide NUMERALS, LOWER, UPPER;
    forall i | 0 <= i < |name| ensures NameByte(name[i]) <==> name[i] as char in NUMERALS + LOWER + UPPER + "_:." {
      InLetters(name[i] as char);
    }
  }

  /** The acknowledgement token of an item. */
  function Token(priority: nat, tag: nat): Bytes {
    Digits(priority) + [COLON] + Digits(tag)
  }

  function Key(name: Bytes, token: Bytes): Bytes {
    name + [BAR] + token
  }

  function ItemKey(name: Bytes, priority: nat, tag: nat): Bytes {
    Key(name, Token(priority, tag))
  }

  /** The item with tag 10 of priority 2. */
  lemma KeyExample()
    ensures Token(2, 10) == Ascii("2:10") && ItemKey(Ascii("q.1"), 2, 10) == Ascii("q.1|2:10")
  {
    assert Digits(10) == Digits(1) + [48] == [49, 48];
    assert Digits(2) == [50];
  }

  /** The number of bytes before the first c. */
  function IndexOf(s: Bytes, c: byte): nat {
    if s == [] || s[0] == c then 0 else 1 + IndexOf(s[1..], c)
  }

  lemma {:induction false} IndexOfSeparator(a: Bytes, x: Bytes, sep: byte)
    requires sep !in a
    ensures IndexOf(a + [sep] + x, sep) == |a|
  {
    if a != [] {
      assert (a + [sep] + x)[1..] == a[1..] + [sep] + x;
      IndexOfSeparator(a[1..], x, sep);
    }
  }

  /** A separator that occurs in neither prefix splits a text in one way. */
  lemma SplitUnique(a: Bytes, x: Bytes, b: Bytes, y: Bytes, sep: byte)
    requires a + [sep] + x == b + [sep] + y
    requires sep !in a && sep !in b
    ensures a == b && x == y
  {
    var s, t := a + [sep] + x, b + [sep] + y;
    IndexOfSeparator(a, x, sep);
    IndexOfSeparator(b, y, sep);
    assert a == s[..|a|] == t[..|a|] == b;
    assert x == s[|a| + 1..] == t[|b| + 1..] == y;
  }

  lemma KeyInjective(n: Bytes, x: Bytes, m: Bytes, y: Bytes)
    requires NameOk(n) && NameOk(m) && Key(n, x) == Key(m, y)
    ensures n == m && x == y
  {
    SplitUnique(n, x, m, y, BAR);
  }

  lemma TokenInjective(p: nat, t: nat, q: nat, u: nat)
    requires Token(p, t) == Token(q, u)
    ensures p == q && t == u
  {
    assert COLON !in Digits(p) && COLON !in Digits(q);
    SplitUnique(Digits(p), Digits(t), Digits(q), Digits(u), COLON);
    DigitsInjective(p, q);
    DigitsInjective(t, u);
  }

  /** Items of different queues, priorities or tags have different keys. */
  lemma ItemKeyInjective(n: Bytes, p: nat, t: nat, m: Bytes, q: nat, u: nat)
    requires NameOk(n) && NameOk(m) && ItemKey(n, p, t) == ItemKey(m, q, u)
    ensures n == m && p == q && t == u
  {
    hide Token, NameOk;
    KeyInjective(n, Token(p, t), m, Token(q, u));
    TokenInjective(p, t, q, u);
  }
}

/** The queue engine of hustdb.cpp on values: the mapped slot array, the in-memory queue map
    and the item store. */
module QueueModel {
  import opened Bytes
  import opened QueueRing
  import opened QueueKeys
  import opened SlotIndex

  const QUEUE_TB: nat := 0

  /** errno results: EKEYREJECTED, EINVAL, ENOMEM, ENOENT, EPERM and storage errors. */
  datatype Code = Ok | Rejected | Refused | OverThreshold | Missing | NoQueue | StorageFault

  type Rings = r: seq<Ring> | |r| == 3 witness [EMPTY_RING, EMPTY_RING, EMPTY_RING]

  const EMPTY_RINGS: Rings := [EMPTY_RING, EMPTY_RING, EMPTY_RING]

  datatype Slot = Slot(
    rings: Rings, flag: bool, lock: bool, kind: nat, timeout: nat, max: nat, ctime: nat, name: Bytes)

  const FREE_SLOT: Slot := Slot(EMPTY_RINGS, false, false, 0, 0, 0, 0, [])

  datatype Due = Due(time: nat, token: Bytes)

  /** `redelivery` is the multimap in its iteration order: by time, then by insertion. */
  datatype Info = Info(offset: nat, unacked: map<Bytes, nat>, redelivery: seq<Due>)

  datatype Engine = Engine(
    slots: seq<Slot>, index: map<Bytes, Info>, store: map<Bytes, Bytes>, now: nat, over: bool, timeout: nat)

  function SlotNames(slots: seq<Slot>): (names: Names)
    ensures |names| == |slots|
  {
    seq(|slots|, i requires 0 <= i < |slots| => if slots[i].flag then Some(slots[i].name) else None)
  }

  function Offsets(index: map<Bytes, Info>): map<Bytes, nat> {
    map n | n in index :: index[n].offset
  }

  // ---------------------------------------------------------------- locating a queue

  /** find_queue_offset without creation, for queues of the item kind. */
  function Find(e: Engine, name: Bytes): (at: Option<nat>)
    ensures at.Some? ==> name in e.index && at.value == e.index[name].offset < |e.slots|
  {
    if name in e.index && e.index[name].offset < |e.slots| && e.slots[e.index[name].offset].kind == QUEUE_TB
    then Some(e.index[name].offset) else None
  }

  function NewSlot(e: Engine, name: Bytes): Slot {
    FREE_SLOT.(flag := true, kind := QUEUE_TB, timeout := e.timeout % 256, ctime := e.now, name := name)
  }

  /** find_queue_offset with creation in the first free slot. */
  function FindOrCreate(e: Engine, name: Bytes): (r: (Engine, Option<nat>))
    ensures r.1.Some? ==> r.1.value < |r.0.slots|
  {
    if name in e.index then (e, Find(e, name))
    else
      var named := FindName(SlotNames(e.slots), name, 0);
      if named < |e.slots| then (e, Some(named))
      else
        var i := FirstFree(SlotNames(e.slots), 0);
        if i == |e.slots| then (e, None)
        else (e.(slots := e.slots[i := NewSlot(e, name)], index := e.index[name := Info(i, map[], [])]), Some(i))
  }

  // ---------------------------------------------------------------- operations

  function Real(s: Slot): nat {
    RealItem(s.rings[0].sp, s.rings[0].ep) + RealItem(s.rings[1].sp, s.rings[1].ep) +
    RealItem(s.rings[2].sp, s.rings[2].ep)
  }

  predicate Full(s: Slot) {
    s.lock || (s.max > 0 && Real(s) >= s.max) || Real(s) >= MAX_ITEMS
  }

  function SetRing(e: Engine, at: nat, p: nat, r: Ring): Engine
    requires at < |e.slots| && p < 3
  {
    e.(slots := e.slots[at := e.slots[at].(rings := e.slots[at].rings[p := r])])
  }

  /** The end of hustmq_put: the item is stored under the next tag, then ep moves. */
  function Push(e: Engine, at: nat, name: Bytes, item: Bytes, p: nat): Engine
    requires at < |e.slots| && p < 3
  {
    var ring := e.slots[at].rings[p];
    var tag := Next(ring.ep);
    SetRing(e, at, p, ring.(ep := tag)).(store := e.store[ItemKey(name, p, tag) := item])
  }

  /** hustmq_put. `fault` is a refusal by the storage, which then changes nothing. */
  function Put(e: Engine, name: Bytes, item: Bytes, p: nat, fault: bool): (Engine, Code) {
    if !NameOk(name) || item == [] || p > 2 then (e, Rejected)
    else if e.over then (e, OverThreshold)
    else
      var (e1, at) := FindOrCreate(e, name);
      if at.None? then (e1, NoQueue)
      else if Full(e1.slots[at.value]) then (e1, Refused)
      else if fault then (e1, StorageFault)
      else (Push(e1, at.value, name, item, p), Ok)
  }

  /** The highest priority with ready items. */
  function Pick(s: Slot): (p: Option<nat>)
    ensures p.Some? ==> p.value < 3
  {
    if RealItem(s.rings[2].sp, s.rings[2].ep) > 0 then Some(2)
    else if RealItem(s.rings[1].sp, s.rings[1].ep) > 0 then Some(1)
    else if RealItem(s.rings[0].sp, s.rings[0].ep) > 0 then Some(0)
    else None
  }

  predicate Overdue(e: Engine, name: Bytes)
    requires name in e.index && e.index[name].offset < |e.slots|
  {
    var info := e.index[name];
    info.redelivery != [] && e.now as int - info.redelivery[0].time >= e.slots[info.offset].timeout * 60
  }

  /** Insertion into the multimap: behind all entries that are not later. */
  function InsertDue(list: seq<Due>, d: Due): seq<Due> {
    if list == [] || d.time < list[0].time then [d] + list else [list[0]] + InsertDue(list[1..], d)
  }

  /** The first equal entry is taken out. */
  function EraseDue(list: seq<Due>, d: Due): seq<Due> {
    if list == [] then [] else if list[0] == d then list[1..] else [list[0]] + EraseDue(list[1..], d)
  }

  /** std::map::insert keeps an entry that is there; the multimap always gets a new one. */
  function Remember(info: Info, token: Bytes, now: nat): Info {
    info.(unacked := if token in info.unacked then info.unacked else info.unacked[token := now],
          redelivery := InsertDue(info.redelivery, Due(now, token)))
  }

  datatype Delivery = Delivery(code: Code, token: Bytes, item: Bytes)

  function Failed(code: Code): Delivery {
    Delivery(code, [], [])
  }

  /** The choice of hustmq_get: the oldest unacknowledged item once it has timed out, else
      the head of the highest priority, whose sp moves before the storage is read. */
  function Choose(e: Engine, at: nat, name: Bytes): (r: (Engine, Option<Bytes>))
    requires name in e.index && at == e.index[name].offset < |e.slots|
    ensures r.0.index.Keys == e.index.Keys
  {
    if Overdue(e, name) then
      var info := e.index[name];
      (e.(index := e.index[name := info.(redelivery := info.redelivery[1..])]), Some(info.redelivery[0].token))
    else
      match Pick(e.slots[at])
      case None => (e, None)
      case Some(p) =>
        var ring := e.slots[at].rings[p];
        (SetRing(e, at, p, ring.(sp := Next(ring.sp))), Some(Token(p, Next(ring.sp))))
  }

  /** hustmq_get. */
  function Get(e: Engine, name: Bytes, worker: Bytes, isAck: bool, fault: bool): (Engine, Delivery) {
    if !NameOk(name) || |worker| <= 4 || |worker| > 32 then (e, Failed(Rejected))
    else if Find(e, name).None? then (e, Failed(NoQueue))
    else
      var (e1, token) := Choose(e, Find(e, name).value, name);
      if token.None? then (e1, Failed(Missing))
      else
        var key := Key(name, token.value);
        if fault then (e1, Failed(StorageFault))
        else if key !in e1.store then (e1, Failed(Missing))
        else
          var d := Delivery(Ok, token.value, e1.store[key]);
          if isAck then (e1, d)
          else (e1.(index := e1.index[name := Remember(e1.index[name], token.value, e1.now)]), d)
  }

  /** The bookkeeping of an acknowledgement. */
  function Forget(info: Info, token: Bytes): Info
    requires token in info.unacked
  {
    info.(unacked := info.unacked - {token},
          redelivery := EraseDue(info.redelivery, Due(info.unacked[token], token)))
  }

  /** The locked part of hustmq_ack: the token is no longer unacknowledged. */
  function Unrecord(e: Engine, name: Bytes, token: Bytes): (Engine, Code) {
    if !NameOk(name) || !NameOk(token) then (e, Rejected)
    else if Find(e, name).None? then (e, NoQueue)
    else if token !in e.index[name].unacked then (e, NoQueue)
    else (e.(index := e.index[name := Forget(e.index[name], token)]), Ok)
  }

  /** The deletion of an acknowledged item, by hustmq_ack after it released the lock of the
      queue and by hustmq_ack_inner, which never takes it. */
  function Drop(e: Engine, name: Bytes, token: Bytes, fault: bool): (Engine, Code) {
    var key := Key(name, token);
    if fault then (e, StorageFault)
    else if key !in e.store then (e, Missing)
    else (e.(store := e.store - {key}), Ok)
  }

  /** The tag of round k of the loop in hustmq_purge. */
  function PurgeTag(r: Ring, k: nat): nat {
    (r.sp + 1 + k) % CYCLE
  }

  /** The keys hustmq_purge walks over. */
  function PurgeKeys(name: Bytes, p: nat, r: Ring): set<Bytes> {
    set k: nat | k < RealItem(r.sp, r.ep) :: ItemKey(name, p, PurgeTag(r, k))
  }

  /** hustmq_purge. `stuck` are keys whose deletion the storage refuses. */
  function Purge(e: Engine, name: Bytes, p: nat, stuck: set<Bytes>): (Engine, Code) {
    if !NameOk(name) || p > 2 then (e, Rejected)
    else if Find(e, name).None? then (e, NoQueue)
    else
      var at := Find(e, name).value;
      var ring := e.slots[at].rings[p];
      var e1 := e.(store := e.store - (PurgeKeys(name, p, ring) - stuck));
      if Real(e.slots[at]) == RealItem(ring.sp, ring.ep) then
        (e1.(index := e1.index - {name}, slots := e1.slots[at := FREE_SLOT]), Ok)
      else (SetRing(e1, at, p, EMPTY_RING), Ok)
  }

  /** hustmq_max and hustmq_lock. */
  function SetMax(e: Engine, name: Bytes, max: nat): (Engine, Code) {
    if !NameOk(name) || max > MAX_ITEMS then (e, Rejected)
    else if Find(e, name).None? then (e, NoQueue)
    else (e.(slots := e.slots[Find(e, name).value := e.slots[Find(e, name).value].(max := max)]), Ok)
  }

  function SetLock(e: Engine, name: Bytes, lock: bool): (Engine, Code) {
    if !NameOk(name) then (e, Rejected)
    else if Find(e, name).None? then (e, NoQueue)
    else (e.(slots := e.slots[Find(e, name).value := e.slots[Find(e, name).value].(lock := lock)]), Ok)
  }

  /** Queues at the given slots, with no item outstanding. */
  function Entries(offsets: map<Bytes, nat>): map<Bytes, Info> {
    map n | n in offsets :: Info(offsets[n], map[], [])
  }

  /** The map a new process builds from the slot array: no item is outstanding. */
  function Restart(e: Engine): Engine {
    e.(index := Entries(Rebuild(SlotNames(e.slots), 0, |e.slots|)))
  }
}
