/** The versioned key-value storage (hustdb/db/server/module/kv/md5db), as a map. Hash
    collisions, files and locks are not part of this model. */
module Store {
  import opened Bytes

  /** Versions have 22 bits. */
  const MAX_VERSION: nat := 4194303

  /** `expires` is the absolute time to live, 0 for none. */
  datatype Entry = Entry(value: Bytes, version: nat, compress: nat, expires: nat)

  type Kv = map<Bytes, Entry>

  datatype Code = Ok | Invalid | NotFound | Fault

  /** `refused` is is_version_error; a refused binlog write still answers Ok. */
  datatype Outcome = Outcome(code: Code, version: nat, refused: bool)

  function NextVersion(v: nat): nat {
    if v < MAX_VERSION then v + 1 else 1
  }

  /** binlog_version_valid: not older, or just past the wrap of the version. */
  predicate BinlogValid(user: nat, current: nat) {
    user >= current || (MAX_VERSION - current <= 100000 && user <= 100000)
  }

  /** What put and del make of the version given by the caller, when the key is there. */
  function VersionCheck(user: nat, current: nat, dup: bool): Option<Outcome> {
    if user == 0 then None
    else if !dup then if user != current then Some(Outcome(Invalid, current, true)) else None
    else if !BinlogValid(user, current) then Some(Outcome(Ok, current, true)) else None
  }

  function Put(kv: Kv, key: Bytes, value: Bytes, compress: nat, expires: nat, user: nat, dup: bool, fault: bool): (Kv, Outcome) {
    if user > MAX_VERSION || (dup && user == 0) then (kv, Outcome(Invalid, 0, false))
    else if key in kv then
      var current := kv[key].version;
      var check := VersionCheck(user, current, dup);
      if check.Some? then (kv, check.value)
      else if fault then (kv, Outcome(Fault, current, false))
      else
        var v := if dup then user else NextVersion(current);
        (kv[key := Entry(value, v, compress, expires)], Outcome(Ok, v, false))
    else if !dup && user != 0 then (kv, Outcome(Invalid, 0, false))
    else if fault then (kv, Outcome(Fault, 0, false))
    else
      var v := if dup then user else 1;
      (kv[key := Entry(value, v, compress, expires)], Outcome(Ok, v, false))
  }

  function Del(kv: Kv, key: Bytes, user: nat, dup: bool, fault: bool): (Kv, Outcome) {
    if user > MAX_VERSION then (kv, Outcome(Invalid, 0, false))
    else if key !in kv then (kv, Outcome(NotFound, 0, false))
    else
      var current := kv[key].version;
      var check := VersionCheck(user, current, dup);
      if check.Some? then (kv, check.value)
      else if fault then (kv, Outcome(Fault, current, false))
      else (kv - {key}, Outcome(Ok, current, false))
  }

  /** Every stored version fits the 22 bits and is not 0. */
  predicate VersionsOk(kv: Kv) {
    forall k :: k in kv ==> 1 <= kv[k].version <= MAX_VERSION
  }

  /** A write takes effect exactly when it answers Ok and was not refused; otherwise nothing
      changes. */
  lemma PutEffect(kv: Kv, key: Bytes, value: Bytes, compress: nat, expires: nat, user: nat, dup: bool, fault: bool)
    requires VersionsOk(kv)
    ensures var (kv', r) := Put(kv, key, value, compress, expires, user, dup, fault);
      && VersionsOk(kv')
      && (if r.code.Ok? && !r.refused then
            1 <= r.version <= MAX_VERSION && kv' == kv[key := Entry(value, r.version, compress, expires)]
          else kv' == kv)
      && (r.refused ==> key in kv && r.version == kv[key].version && (r.code.Ok? <==> dup))
      && (r.code.Ok? && !r.refused && !dup ==>
            (r.version == 1 <==> key !in kv || kv[key].version == MAX_VERSION))
      && (r.code.Ok? && !r.refused && dup ==> r.version == user)
      && (r.code.Ok? && !r.refused && !dup && key in kv && kv[key].version < 4194303 ==> r.version == kv[key].version + 1)
  {
  }

  /** A binlog version is too old for a stored one: smaller, and not just past the wrap. */
  predicate TooOld(user: nat, stored: nat) {
    user < stored && (stored < 4094303 || user > 100000)
  }

  /** The answer of a put by the version given and the version stored (0 if none): a plain write
      needs 0 or the stored version, a binlog write any other number; one that is too old is
      refused and still answers Ok. */
  lemma PutAnswers(kv: Kv, key: Bytes, value: Bytes, compress: nat, expires: nat, user: nat, dup: bool, fault: bool)
    requires VersionsOk(kv)
    ensures var r := Put(kv, key, value, compress, expires, user, dup, fault).1;
      var stored := if key in kv then kv[key].version else 0;
      var fits := user <= 4194303 && if dup then user > 0 else user == 0 || user == stored;
      && (!fits <==> r.code == Invalid)
      && (r.code == Ok && r.refused <==> fits && dup && TooOld(user, stored))
      && (r.code == Fault <==> fits && fault && !(dup && TooOld(user, stored)))
      && r.code != NotFound
  {
  }

  /** The answer of a delete: a missing key is reported as such whatever the version. */
  lemma DelAnswers(kv: Kv, key: Bytes, user: nat, dup: bool, fault: bool)
    requires VersionsOk(kv)
    ensures var r := Del(kv, key, user, dup, fault).1;
      var stored := if key in kv then kv[key].version else 0;
      var fits := user <= 4194303 && (dup || user == 0 || user == stored);
      var old_ := dup && user > 0 && TooOld(user, stored);
      && (r.code == NotFound <==> user <= 4194303 && key !in kv)
      && (r.code == Invalid <==> user > 4194303 || (key in kv && !fits))
      && (r.code == Ok && r.refused <==> key in kv && fits && old_)
      && (r.code == Fault <==> key in kv && fits && fault && !old_)
  {
  }

  lemma DelEffect(kv: Kv, key: Bytes, user: nat, dup: bool, fault: bool)
    requires VersionsOk(kv)
    ensures var (kv', r) := Del(kv, key, user, dup, fault);
      && VersionsOk(kv')
      && (if r.code.Ok? && !r.refused then key in kv && kv' == kv - {key} else kv' == kv)
      && (r.refused ==> key in kv && (r.code.Ok? <==> dup))
  {
  }
}

/** The read cache in front of the storage: hustdb_get, hustdb_put and hustdb_del. */
module KvCache {
  import opened Bytes
  import Store

  const KEY_LIMIT: nat := 255
  const VALUE_LIMIT: nat := 1048571
  const VERSION_FIELD: nat := 0x40_0000
  const MAX_DELTA: nat := 2592000
  const VERSION_LIMIT: nat := 0xFFFF_FFFF

  /** A cached value with its trailer: a 22-bit version and the compression type. */
  datatype Cached = Cached(value: Bytes, version: nat, compress: nat, expires: nat)

  datatype Db = Db(
    store: Store.Kv, cache: map<Bytes, Cached>, now: nat, started: nat, maxTtl: nat, enabled: bool, over: bool)

  datatype Code = Ok | Rejected | OverThreshold | Storage(code: Store.Code)

  datatype Answer = Answer(code: Code, value: Bytes, version: nat, compress: nat)

  function NoAnswer(code: Code): Answer {
    Answer(code, [], 0, 0)
  }

  /** When the cache drops an entry: a time to live beyond 30 days is taken as a date. */
  function CacheExpiry(d: Db, ttl: nat): nat {
    var t := if ttl >= 0x8000_0000 then MAX_DELTA + 1 else ttl;
    if t == 0 then 0
    else if t > MAX_DELTA then if t <= d.started then d.started + 1 else t
    else d.now + t
  }

  predicate Live(c: Cached, now: nat) {
    c.expires == 0 || c.expires > now
  }

  predicate Expired(e: Store.Entry, now: nat) {
    e.expires > 0 && e.expires <= now
  }

  predicate Cachable(d: Db, key: Bytes) {
    d.enabled && |key| < KEY_LIMIT
  }

  function Trailer(value: Bytes, version: nat, compress: nat, expires: nat): Cached {
    Cached(value, version % VERSION_FIELD, compress, expires)
  }

  /** The answer of the storage alone. */
  function Lookup(d: Db, key: Bytes): Answer {
    if key == [] then NoAnswer(Rejected)
    else if key !in d.store || Expired(d.store[key], d.now) then NoAnswer(Storage(Store.NotFound))
    else Answer(Ok, d.store[key].value, d.store[key].version, d.store[key].compress)
  }

  /** hustdb_get: a cache hit answers; a miss reads the storage, deletes an expired entry and
      fills the cache. `fault` is a failed deletion. */
  function Get(d: Db, key: Bytes, fault: bool): (Db, Answer) {
    if key == [] then (d, NoAnswer(Rejected))
    else if Cachable(d, key) && key in d.cache && Live(d.cache[key], d.now) && d.cache[key].value != [] then
      var c := d.cache[key];
      (d, Answer(Ok, c.value, c.version, c.compress))
    else if key !in d.store then (d, NoAnswer(Storage(Store.NotFound)))
    else
      var e := d.store[key];
      if Expired(e, d.now) then
        (d.(store := Store.Del(d.store, key, 0, false, fault).0), NoAnswer(Storage(Store.NotFound)))
      else
        var answer := Answer(Ok, e.value, e.version, e.compress);
        var alive := if e.expires > 0 then e.expires - d.now else 0;
        if Cachable(d, key) && |e.value| < VALUE_LIMIT then
          (d.(cache := d.cache[key := Trailer(e.value, e.version, e.compress, CacheExpiry(d, alive))]), answer)
        else (d, answer)
  }

  /** hustdb_put: the cache is brought up to date unless the returned version is 1, which
      stands for a new key. */
  function Put(d: Db, key: Bytes, value: Bytes, compress: nat, user: nat, ttl: nat, dup: bool, fault: bool): (Db, Code) {
    if key == [] || value == [] || user >= VERSION_LIMIT then (d, Rejected)
    else if d.over then (d, OverThreshold)
    else
      var expires := if ttl == 0 || ttl > d.maxTtl then 0 else d.now + ttl;
      var (store', r) := Store.Put(d.store, key, value, compress, expires, user, dup, fault);
      var d1 := d.(store := store');
      if !r.code.Ok? then (d1, Storage(r.code))
      else if ((!dup && r.version > 1) || (dup && user == r.version && !r.refused)) && Cachable(d, key) then
        if |value| < VALUE_LIMIT then
          (d1.(cache := d.cache[key := Trailer(value, r.version, compress, CacheExpiry(d, ttl))]), Ok)
        else (d1.(cache := d.cache - {key}), Ok)
      else (d1, Ok)
  }

  /** hustdb_del. */
  function Del(d: Db, key: Bytes, user: nat, dup: bool, fault: bool): (Db, Code) {
    if key == [] || user >= VERSION_LIMIT then (d, Rejected)
    else
      var (store', r) := Store.Del(d.store, key, user, dup, fault);
      var d1 := d.(store := store');
      if !r.code.Ok? then (d1, Storage(r.code))
      else if !r.refused && Cachable(d, key) then (d1.(cache := d.cache - {key}), Ok)
      else (d1, Ok)
  }

  // ---------------------------------------------------------------- agreement

  /** A cached entry that is still served has the stored value and version, and is dropped
      no later than the stored one expires. */
  predicate Fits(c: Cached, e: Store.Entry) {
    && c.value == e.value && c.version == e.version && c.compress == e.compress
    && (e.expires == 0 || (c.expires != 0 && c.expires <= e.expires))
  }

  ghost predicate Agree(d: Db) {
    forall k :: k in d.cache && Live(d.cache[k], d.now) ==> k in d.store && Fits(d.cache[k], d.store[k])
  }

  ghost predicate Inv(d: Db) {
    && d.started <= d.now
    && Store.VersionsOk(d.store)
    && (forall k :: k in d.store ==> d.store[k].value != [])
    && (forall k :: k in d.cache ==> Cachable(d, k))
    && Agree(d)
  }

  /** In an agreeing state hustdb_get answers as if there were no cache. */
  lemma GetIsLookup(d: Db, key: Bytes, fault: bool)
    requires Inv(d)
    ensures Get(d, key, fault).1 == Lookup(d, key)
  {
  }

  lemma GetKeeps(d: Db, key: Bytes, fault: bool)
    requires Inv(d)
    ensures Inv(Get(d, key, fault).0)
  {
    Store.DelEffect(d.store, key, 0, false, fault);
  }

  /** A plain write whose version wraps to 1 while the key is served from the cache. */
  predicate Wraps(d: Db, key: Bytes, user: nat, dup: bool) {
    && !dup && key in d.store && d.store[key].version == Store.MAX_VERSION && (user == 0 || user == Store.MAX_VERSION)
    && key in d.cache && Live(d.cache[key], d.now)
  }

  predicate Accepted(d: Db, key: Bytes, value: Bytes, user: nat, fault: bool) {
    key != [] && value != [] && user < VERSION_LIMIT && !d.over && !fault
  }

  /** A stored entry and the cached copy made at the same time fit. */
  lemma CopyFits(d: Db, value: Bytes, version: nat, compress: nat, ttl: nat)
    requires d.started <= d.now && version <= Store.MAX_VERSION
    ensures var expires := if ttl == 0 || ttl > d.maxTtl then 0 else d.now + ttl;
      Fits(Trailer(value, version, compress, CacheExpiry(d, ttl)), Store.Entry(value, version, compress, expires))
  {
  }

  /** Replacing one entry of the storage and, if at all, of the cache. */
  lemma ReplaceKeeps(d: Db, key: Bytes, e: Store.Entry, cache': map<Bytes, Cached>)
    requires Inv(d) && e.value != [] && 1 <= e.version <= Store.MAX_VERSION
    requires cache' - {key} == d.cache - {key}
    requires key in cache' ==> Cachable(d, key)
    ensures Inv(d.(store := d.store[key := e], cache := cache')) <==>
      (key in cache' && Live(cache'[key], d.now) ==> Fits(cache'[key], e))
  {
    hide Fits;
    var d1 := d.(store := d.store[key := e], cache := cache');
    forall k | k in cache' && k != key ensures k in d.cache && cache'[k] == d.cache[k] {
      assert k in cache' - {key};
      assert (cache' - {key})[k] == cache'[k] && (d.cache - {key})[k] == d.cache[k];
    }
    if key in cache' && Live(cache'[key], d.now) && !Fits(cache'[key], e) {
      assert !Agree(d1);
    }
  }

  /** The cache after a write that took effect with version v. */
  function CacheAfter(d: Db, key: Bytes, value: Bytes, compress: nat, v: nat, ttl: nat, dup: bool): map<Bytes, Cached> {
    if !((dup || v > 1) && Cachable(d, key)) then d.cache
    else if |value| < VALUE_LIMIT then d.cache[key := Trailer(value, v, compress, CacheExpiry(d, ttl))]
    else d.cache - {key}
  }

  lemma EffectiveExact(d: Db, key: Bytes, value: Bytes, compress: nat, v: nat, ttl: nat, dup: bool)
    requires Inv(d) && value != [] && 1 <= v <= Store.MAX_VERSION
    ensures var expires := if ttl == 0 || ttl > d.maxTtl then 0 else d.now + ttl;
      var cache' := CacheAfter(d, key, value, compress, v, ttl, dup);
      var d1 := d.(store := d.store[key := Store.Entry(value, v, compress, expires)], cache := cache');
      && (dup || v > 1 ==> Inv(d1))
      && (!dup && v == 1 && key !in d.store ==> Inv(d1))
      && (!dup && v == 1 && key in d.store && d.store[key].version == Store.MAX_VERSION ==>
            (Inv(d1) <==> !(key in d.cache && Live(d.cache[key], d.now))))
  {
    hide Agree, CacheExpiry, Store.VersionsOk;
    var expires := if ttl == 0 || ttl > d.maxTtl then 0 else d.now + ttl;
    var cache' := CacheAfter(d, key, value, compress, v, ttl, dup);
    CopyFits(d, value, v, compress, ttl);
    assert cache' - {key} == d.cache - {key};
    ReplaceKeeps(d, key, Store.Entry(value, v, compress, expires), cache');
    AgreeAt(d, key);
  }

  /** hustdb_put in terms of what the storage did. */
  lemma PutByOutcome(d: Db, key: Bytes, value: Bytes, compress: nat, user: nat, ttl: nat, dup: bool, fault: bool)
    requires Store.VersionsOk(d.store) && Accepted(d, key, value, user, false)
    ensures var expires := if ttl == 0 || ttl > d.maxTtl then 0 else d.now + ttl;
      var r := Store.Put(d.store, key, value, compress, expires, user, dup, fault).1;
      var d1 := Put(d, key, value, compress, user, ttl, dup, fault).0;
      if r.code.Ok? && !r.refused then
        && 1 <= r.version <= Store.MAX_VERSION
        && d1 == d.(store := d.store[key := Store.Entry(value, r.version, compress, expires)],
                    cache := CacheAfter(d, key, value, compress, r.version, ttl, dup))
        && (!dup ==> (r.version == 1 <==> key !in d.store || d.store[key].version == Store.MAX_VERSION))
        && !fault
        && (!dup && key in d.store ==> user == 0 || user == d.store[key].version)
      else d1 == d && !(Accepted(d, key, value, user, fault) && Wraps(d, key, user, dup))
  {
    hide CacheExpiry, Trailer;
    var expires := if ttl == 0 || ttl > d.maxTtl then 0 else d.now + ttl;
    Store.PutEffect(d.store, key, value, compress, expires, user, dup, fault);
  }

  /** hustdb_put keeps the agreement exactly unless the version wraps: then it returns
      version 1, takes the key for a new one and leaves the old value in the cache. */
  lemma PutExact(d: Db, key: Bytes, value: Bytes, compress: nat, user: nat, ttl: nat, dup: bool, fault: bool)
    requires Inv(d)
    ensures var d1 := Put(d, key, value, compress, user, ttl, dup, fault).0;
      Inv(d1) <==> !(Accepted(d, key, value, user, fault) && Wraps(d, key, user, dup))
  {
    assert Store.VersionsOk(d.store);
    if Accepted(d, key, value, user, false) {
      hide Inv, Store.Put, CacheAfter, Store.VersionsOk, Put, Live;
      PutByOutcome(d, key, value, compress, user, ttl, dup, fault);
      var expires := if ttl == 0 || ttl > d.maxTtl then 0 else d.now + ttl;
      var r := Store.Put(d.store, key, value, compress, expires, user, dup, fault).1;
      if r.code.Ok? && !r.refused {
        EffectiveExact(d, key, value, compress, r.version, ttl, dup);
      }
    }
  }

  /** A get that answers Ok leaves the entry in the cache if key and value are short enough; the
      next get is answered from there if the entry does not expire within more than 30 days. */
  lemma GetFills(d: Db, key: Bytes, fault: bool)
    requires Inv(d) && d.enabled && 0 < |key| < 255 && Get(d, key, fault).1.code == Ok
    ensures var (d1, answer) := Get(d, key, fault);
      |answer.value| < 1048571 ==>
        && key in d1.cache && d1.cache[key].value == answer.value && d1.cache[key].version == answer.version
        && (key in d.store && (d.store[key].expires == 0 || d.store[key].expires - d.now <= 2592000) ==>
              Live(d1.cache[key], d1.now) && Get(d1, key, fault) == (d1, answer))
  {
  }

  /** hustdb_put answers for the storage once key, value, version and memory pass; hustdb_del asks
      for key and version only. */
  lemma AnswersAre(d: Db, key: Bytes, value: Bytes, compress: nat, user: nat, ttl: nat, dup: bool, fault: bool)
    ensures var expires := if ttl == 0 || ttl > d.maxTtl then 0 else d.now + ttl;
      var put := Store.Put(d.store, key, value, compress, expires, user, dup, fault).1.code;
      var del := Store.Del(d.store, key, user, dup, fault).1.code;
      && Put(d, key, value, compress, user, ttl, dup, fault).1 ==
           (if key == [] || value == [] || user >= 0xFFFF_FFFF then Rejected
            else if d.over then OverThreshold
            else if put.Ok? then Ok else Storage(put))
      && Del(d, key, user, dup, fault).1 ==
           (if key == [] || user >= 0xFFFF_FFFF then Rejected else if del.Ok? then Ok else Storage(del))
  {
    hide Store.Put, Store.Del, CacheExpiry;
  }

  /** A get that finds an expired entry deletes it. */
  lemma ExpiredIsDeleted(d: Db, key: Bytes)
    requires Inv(d) && key != [] && key in d.store && d.store[key].expires > 0 && d.store[key].expires <= d.now
    ensures Get(d, key, false) == (d.(store := d.store - {key}), NoAnswer(Storage(Store.NotFound)))
  {
  }

  /** A value written with a time to live is answered until that many seconds have passed, from
      the cache or from the storage, and not found from then on; a time beyond the limit counts
      as none. */
  lemma TtlExact(d: Db, key: Bytes, value: Bytes, ttl: nat, seconds: nat)
    requires Inv(d) && Accepted(d, key, value, 0, false) && !Wraps(d, key, 0, false)
    ensures var d1 := Step(Step(d, OpPut(key, value, 0, 0, ttl, false, false)), OpClock(seconds));
      var answer := Get(d1, key, false).1;
      if 0 < ttl <= d.maxTtl && seconds >= ttl then answer == NoAnswer(Storage(Store.NotFound))
      else answer.code == Ok && answer.value == value
  {
    hide Inv, Get, CacheAfter, Put, Store.Put;
    var d0 := Step(d, OpPut(key, value, 0, 0, ttl, false, false));
    StepExact(d, OpPut(key, value, 0, 0, ttl, false, false));
    StepExact(d0, OpClock(seconds));
    GetIsLookup(Step(d0, OpClock(seconds)), key, false);
    assert Store.VersionsOk(d.store) by { StoreOf(d); }
    PutByOutcome(d, key, value, 0, 0, ttl, false, false);
    PlainPut(d.store, key, value, if ttl == 0 || ttl > d.maxTtl then 0 else d.now + ttl);
  }

  lemma StoreOf(d: Db)
    requires Inv(d)
    ensures Store.VersionsOk(d.store)
  {
  }

  lemma PlainPut(kv: Store.Kv, key: Bytes, value: Bytes, expires: nat)
    ensures var r := Store.Put(kv, key, value, 0, expires, 0, false, false).1;
      r.code.Ok? && !r.refused
  {
  }

  lemma AgreeAt(d: Db, key: Bytes)
    requires Agree(d)
    ensures key in d.cache && Live(d.cache[key], d.now) ==> key in d.store && Fits(d.cache[key], d.store[key])
  {
  }

  lemma DelKeeps(d: Db, key: Bytes, user: nat, dup: bool, fault: bool)
    requires Inv(d)
    ensures Inv(Del(d, key, user, dup, fault).0)
  {
    Store.DelEffect(d.store, key, user, dup, fault);
  }

  // ---------------------------------------------------------------- runs

  datatype Op =
    | OpGet(key: Bytes, fault: bool)
    | OpPut(key: Bytes, value: Bytes, compress: nat, user: nat, ttl: nat, dup: bool, fault: bool)
    | OpDel(key: Bytes, user: nat, dup: bool, fault: bool)
    | OpEvict(keys: set<Bytes>)
    | OpScan(keys: set<Bytes>)
    | OpClock(seconds: nat)

  /** The cache may drop entries at any time; the background scan deletes expired ones. */
  function Step(d: Db, op: Op): Db {
    match op
    case OpGet(key, fault) => Get(d, key, fault).0
    case OpPut(key, value, compress, user, ttl, dup, fault) => Put(d, key, value, compress, user, ttl, dup, fault).0
    case OpDel(key, user, dup, fault) => Del(d, key, user, dup, fault).0
    case OpEvict(keys) => d.(cache := d.cache - keys)
    case OpScan(keys) => d.(store := d.store - set k | k in d.store && k in keys && Expired(d.store[k], d.now))
    case OpClock(seconds) => d.(now := d.now + seconds)
  }

  predicate NoWrap(d: Db, op: Op) {
    op.OpPut? ==> !(Accepted(d, op.key, op.value, op.user, op.fault) && Wraps(d, op.key, op.user, op.dup))
  }

  lemma StepExact(d: Db, op: Op)
    requires Inv(d)
    ensures Inv(Step(d, op)) <==> NoWrap(d, op)
  {
    match op
    case OpGet(key, fault) => GetKeeps(d, key, fault);
    case OpPut(key, value, compress, user, ttl, dup, fault) => PutExact(d, key, value, compress, user, ttl, dup, fault);
    case OpDel(key, user, dup, fault) => DelKeeps(d, key, user, dup, fault);
    case OpEvict(keys) =>
    case OpScan(keys) =>
    case OpClock(seconds) =>
  }

  function Run(d: Db, ops: seq<Op>): Db
    decreases |ops|
  {
    if ops == [] then d else Run(Step(d, ops[0]), ops[1..])
  }

  predicate NoWrapRun(d: Db, ops: seq<Op>)
    decreases |ops|
  {
    ops == [] || (NoWrap(d, ops[0]) && NoWrapRun(Step(d, ops[0]), ops[1..]))
  }

  /** Cache and storage agree in every state of a run. */
  ghost predicate AgreeThroughout(d: Db, ops: seq<Op>)
    decreases |ops|
  {
    Inv(d) && (ops == [] || AgreeThroughout(Step(d, ops[0]), ops[1..]))
  }

  /** They do exactly when no accepted put wraps the version of a cached key. */
  lemma {:induction false} AgreementExact(d: Db, ops: seq<Op>)
    requires Inv(d)
    ensures AgreeThroughout(d, ops) <==> NoWrapRun(d, ops)
    decreases |ops|
  {
    hide Inv, Step, NoWrap;
    if ops != [] {
      StepExact(d, ops[0]);
      if NoWrap(d, ops[0]) {
        AgreementExact(Step(d, ops[0]), ops[1..]);
      }
    }
  }

  /** After every run of gets, puts, deletes, evictions, scans and clock ticks in which no
      version wraps under a cached key, every get answers as if the cache were absent. */
  lemma {:induction false} CacheIsInvisible(d: Db, ops: seq<Op>, key: Bytes, fault: bool)
    requires Inv(d) && NoWrapRun(d, ops)
    ensures Inv(Run(d, ops))
    ensures Get(Run(d, ops), key, fault).1 == Lookup(Run(d, ops), key)
    decreases |ops|
  {
    hide Inv, Step, NoWrap, Get, Lookup;
    if ops == [] {
      GetIsLookup(d, key, fault);
    } else {
      StepExact(d, ops[0]);
      CacheIsInvisible(Step(d, ops[0]), ops[1..], key, fault);
    }
  }

  /** A database without entries, with its cache on. */
  const EMPTY_DB: Db := Db(map[], map[], 100, 1, 0, true, false)

  /** From an empty database, a binlog put with the last version and one plain put: the storage
      has the new value and hustdb_get still answers the old one. */
  lemma WrapExample(key: Bytes, a: Bytes, b: Bytes)
    requires 0 < |key| < KEY_LIMIT && 0 < |a| < VALUE_LIMIT && b != []
    ensures var d := Run(EMPTY_DB, [OpPut(key, a, 0, Store.MAX_VERSION, 0, true, false), OpPut(key, b, 0, 0, 0, false, false)]);
      && Inv(EMPTY_DB)
      && Lookup(d, key) == Answer(Ok, b, 1, 0)
      && Get(d, key, false).1 == Answer(Ok, a, Store.MAX_VERSION, 0)
  {
    var first, second := OpPut(key, a, 0, Store.MAX_VERSION, 0, true, false), OpPut(key, b, 0, 0, 0, false, false);
    var d1 := Step(EMPTY_DB, first);
    assert d1.store == map[key := Store.Entry(a, Store.MAX_VERSION, 0, 0)];
    assert d1.cache == map[key := Cached(a, Store.MAX_VERSION, 0, 0)];
    var d2 := Step(d1, second);
    assert d2.store[key] == Store.Entry(b, 1, 0, 0) && d2.cache == d1.cache;
    assert [first, second][1..] == [second] && [second][1..] == [];
    assert Run(d1, [second]) == Run(d2, []);
  }
}
