/** Sorted sets behind the read cache: zadd and zscore read a member through the cache, zadd
    writes it back and zrem drops it. Index entries are never cached. */
module ZSetCache {
  import opened Bytes
  import opened ZSetScore
  import opened QueueKeys
  import Store
  import KvCache
  import ZSet

  type Db = KvCache.Db

  predicate Cachable(d: Db, table: Bytes, member: Bytes) {
    d.enabled && |table| + |member| + 2 < KvCache.KEY_LIMIT
  }

  predicate Hit(d: Db, table: Bytes, member: Bytes) {
    var key := ZSet.MemberKey(table, member);
    Cachable(d, table, member) && key in d.cache && KvCache.Live(d.cache[key], d.now) && d.cache[key].value != []
  }

  /** The text and version zadd and zscore start from. */
  function Current(d: Db, table: Bytes, member: Bytes): Option<(Bytes, nat)> {
    var key := ZSet.MemberKey(table, member);
    if Hit(d, table, member) then Some((d.cache[key].value, d.cache[key].version))
    else if key in d.store then Some((d.store[key].value, d.store[key].version))
    else None
  }

  function Zadd(d: Db, table: Bytes, member: Bytes, score: int, opt: int, user: nat, dup: bool, fault: bool): (Db, ZSet.Code) {
    var key := ZSet.MemberKey(table, member);
    var current := Current(d, table, member);
    var parsed := if current.Some? then ParseScore(current.value.0) else None;
    if current.Some? && parsed.None? then (d, ZSet.BadValue)
    else
      var was := if current.Some? then parsed.value else 0;
      if current.Some? && opt == 0 && was == score && current.value.1 >= user then (d, ZSet.Ok)
      else
        var target := ZSet.NewScore(was, score, opt);
        var (store1, r) := Store.Put(d.store, key, ScoreText(target), 0, 0, user, dup, fault);
        if !r.code.Ok? then (d.(store := store1), ZSet.Storage(r.code))
        else
          var store2 := ZSet.Reindex(store1, table, member, if current.Some? then Some(was) else None, target, r.version);
          if ((!dup && r.version > 1) || (dup && user == r.version && !r.refused)) && Cachable(d, table, member) then
            (d.(store := store2, cache := d.cache[key := KvCache.Trailer(ScoreText(target), r.version, 0, 0)]), ZSet.Ok)
          else (d.(store := store2), ZSet.Ok)
  }

  function Zrem(d: Db, table: Bytes, member: Bytes, user: nat, dup: bool, fault: bool): (Db, ZSet.Code) {
    var key := ZSet.MemberKey(table, member);
    var r := Store.Del(d.store, key, user, dup, fault).1;
    var (store1, code) := ZSet.Zrem(d.store, table, member, user, dup, fault);
    if code == ZSet.Ok && !r.refused && Cachable(d, table, member) then
      (d.(store := store1, cache := d.cache - {key}), code)
    else (d.(store := store1), code)
  }

  /** zscore fills the cache after a miss. */
  function Zscore(d: Db, table: Bytes, member: Bytes): (Db, Option<(Bytes, nat)>) {
    var key := ZSet.MemberKey(table, member);
    var current := Current(d, table, member);
    if !Hit(d, table, member) && current.Some? && Cachable(d, table, member) && |current.value.0| < KvCache.VALUE_LIMIT then
      (d.(cache := d.cache[key := KvCache.Trailer(current.value.0, current.value.1, 0, 0)]), current)
    else (d, current)
  }

  // ---------------------------------------------------------------- agreement

  /** Only member keys are cached. */
  predicate IsMemberKey(key: Bytes) {
    ZSet.KindAt(key) < |key| && key[ZSet.KindAt(key)] == ZSet.ZSET_IN
  }

  lemma KeyKinds(t: Bytes, m: Bytes, x: int)
    requires NameOk(t)
    ensures IsMemberKey(ZSet.MemberKey(t, m)) && !IsMemberKey(ZSet.IndexKey(t, x, m))
  {
    ZSet.TableBytes(t);
    ZSet.KindAtIs(t, ZSet.ZSET_IN, [] + m);
    ZSet.KindAtIs(t, ZSet.ZSET_TB, Score21(x) + m);
  }

  predicate Agrees(c: KvCache.Cached, store: Store.Kv, key: Bytes) {
    key in store && c.value == store[key].value && c.version == store[key].version
  }

  ghost predicate Agree(d: Db) {
    forall k :: k in d.cache ==>
      && IsMemberKey(k) && d.enabled && |k| + 1 < KvCache.KEY_LIMIT
      && (KvCache.Live(d.cache[k], d.now) ==> Agrees(d.cache[k], d.store, k))
  }

  ghost predicate Inv(d: Db) {
    ZSet.Inv(d.store) && Agree(d)
  }

  /** What the storage alone would answer. */
  function Stored(d: Db, table: Bytes, member: Bytes): Option<(Bytes, nat)> {
    var key := ZSet.MemberKey(table, member);
    if key in d.store then Some((d.store[key].value, d.store[key].version)) else None
  }

  lemma CurrentIsStored(d: Db, t: Bytes, m: Bytes)
    requires Agree(d)
    ensures Current(d, t, m) == Stored(d, t, m)
  {
  }

  /** Reading through the cache makes no difference to the storage or the answer. */
  lemma ZaddRefines(d: Db, t: Bytes, m: Bytes, score: int, opt: int, user: nat, dup: bool, fault: bool)
    requires Agree(d)
    ensures var (d', r) := Zadd(d, t, m, score, opt, user, dup, fault);
      (d'.store, r) == ZSet.Zadd(d.store, t, m, score, opt, user, dup, fault)
  {
    hide Agree, ParseScore, ScoreText, ZSet.Reindex, Store.Put, ZSet.MemberKey;
    CurrentIsStored(d, t, m);
  }

  lemma ZscoreIsStored(d: Db, t: Bytes, m: Bytes)
    requires Agree(d)
    ensures var (d', answer) := Zscore(d, t, m);
      answer == Stored(d, t, m) && d'.store == d.store
  {
  }

  /** After a zscore that found the member, a member whose name is short enough is in the cache,
      and the next zscore reads it there. */
  lemma ZscoreFills(d: Db, t: Bytes, m: Bytes)
    requires ZSet.Inv(d.store) && Agree(d) && NameOk(t) && d.enabled && |t| + |m| + 2 < 255
    requires Zscore(d, t, m).1.Some? && 0 < |Zscore(d, t, m).1.value.0| < 1048571
    ensures var (d1, answer) := Zscore(d, t, m);
      Hit(d1, t, m) && Zscore(d1, t, m) == (d1, answer)
  {
    hide ZSet.TableOk, NameOk;
    var key := ZSet.MemberKey(t, m);
    CurrentIsStored(d, t, m);
  }

  // ---------------------------------------------------------------- steps

  predicate SameAt(a: Store.Kv, b: Store.Kv, k: Bytes) {
    (k in a <==> k in b) && (k in a ==> a[k] == b[k])
  }

  /** The index part of zadd leaves every member's entry alone. */
  lemma ReindexFrame(kv: Store.Kv, t: Bytes, m: Bytes, was: Option<int>, score: int, version: nat)
    requires NameOk(t)
    ensures forall k :: IsMemberKey(k) ==> SameAt(kv, ZSet.Reindex(kv, t, m, was, score, version), k)
  {
    hide IsMemberKey, ZSet.IndexKey, NameOk, ScoreText;
    KeyKinds(t, m, score);
    if was.Some? { KeyKinds(t, m, was.value); }
  }

  /** The member's entry changed, if at all, in the storage and in the cache. */
  lemma EntryExact(d: Db, d': Db, key: Bytes)
    requires Agree(d) && IsMemberKey(key) && d'.now == d.now && d'.enabled == d.enabled
    requires forall k :: IsMemberKey(k) && k != key ==> SameAt(d.store, d'.store, k)
    requires d'.cache - {key} == d.cache - {key}
    requires key in d'.cache ==> d.enabled && |key| + 1 < KvCache.KEY_LIMIT
    ensures Agree(d') <==>
      (key in d'.cache && KvCache.Live(d'.cache[key], d.now) ==> Agrees(d'.cache[key], d'.store, key))
  {
    hide IsMemberKey, KvCache.Live;
    forall k | k in d'.cache && k != key ensures k in d.cache && d'.cache[k] == d.cache[k] {
      assert k in d'.cache - {key};
      assert (d'.cache - {key})[k] == d'.cache[k] && (d.cache - {key})[k] == d.cache[k];
    }
  }

  /** A plain write at the last version of a member that is served from the cache. */
  predicate Wraps(d: Db, t: Bytes, m: Bytes, score: int, opt: int, user: nat, dup: bool, fault: bool) {
    KvCache.Wraps(d, ZSet.MemberKey(t, m), user, dup) && !fault && !(opt == 0 && ZSet.ScoreOr0(d.store, t, m) == score)
  }

  /** zadd in terms of what the storage did with the member's key. */
  lemma ZaddByOutcome(d: Db, t: Bytes, m: Bytes, score: int, opt: int, user: nat, dup: bool, fault: bool)
    requires Inv(d) && NameOk(t) && Is64(score)
    ensures var (d', r) := Zadd(d, t, m, score, opt, user, dup, fault);
      var key := ZSet.MemberKey(t, m);
      var was := ZSet.ScoreOf(d.store, t, m);
      var b := ZSet.NewScore(ZSet.ScoreOr0(d.store, t, m), score, opt);
      var (store1, put) := Store.Put(d.store, key, ScoreText(b), 0, 0, user, dup, fault);
      && (was.Some? <==> key in d.store)
      && (if was == Some(score) && opt == 0 && d.store[key].version >= user then d' == d
          else if !put.code.Ok? then d' == d.(store := store1)
          else d' == d.(store := ZSet.Reindex(store1, t, m, was, b, put.version),
                        cache := CacheAfter(d, t, m, b, put, user, dup)))
  {
    hide Agree, ParseScore, ScoreText, ZSet.Reindex, Store.Put, ZSet.MemberKey, NameOk, Store.VersionsOk;
    assert ZSet.TableOk(d.store, t);
    CurrentIsStored(d, t, m);
  }

  function CacheAfter(d: Db, t: Bytes, m: Bytes, b: int, put: Store.Outcome, user: nat, dup: bool): map<Bytes, KvCache.Cached> {
    if ((!dup && put.version > 1) || (dup && user == put.version && !put.refused)) && Cachable(d, t, m) then
      d.cache[ZSet.MemberKey(t, m) := KvCache.Trailer(ScoreText(b), put.version, 0, 0)]
    else d.cache
  }

  /** The write of one member keeps the cached copy in agreement exactly unless the version
      wraps under it. */
  lemma CachedWrite(d: Db, t: Bytes, m: Bytes, b: int, user: nat, dup: bool, fault: bool, store2: Store.Kv)
    requires Inv(d) && NameOk(t)
    requires var (store1, put) := Store.Put(d.store, ZSet.MemberKey(t, m), ScoreText(b), 0, 0, user, dup, fault);
      put.code.Ok? && forall k :: IsMemberKey(k) ==> SameAt(store1, store2, k)
    ensures var put := Store.Put(d.store, ZSet.MemberKey(t, m), ScoreText(b), 0, 0, user, dup, fault).1;
      Agree(d.(store := store2, cache := CacheAfter(d, t, m, b, put, user, dup))) <==>
      !(KvCache.Wraps(d, ZSet.MemberKey(t, m), user, dup) && !fault)
  {
    hide IsMemberKey, KvCache.Live, NameOk, ScoreText, ZSet.TableOk;
    var key := ZSet.MemberKey(t, m);
    KeyKinds(t, m, b);
    var (store1, put) := Store.Put(d.store, key, ScoreText(b), 0, 0, user, dup, fault);
    var d' := d.(store := store2, cache := CacheAfter(d, t, m, b, put, user, dup));
    assert |key| == |t| + 1 + |m|;
    EntryExact(d, d', key);
    assert SameAt(store1, store2, key);
  }

  /** zadd keeps the cache in agreement exactly unless the version wraps under it. */
  lemma ZaddCacheExact(d: Db, t: Bytes, m: Bytes, score: int, opt: int, user: nat, dup: bool, fault: bool)
    requires Inv(d) && NameOk(t) && Is64(score)
    ensures Agree(Zadd(d, t, m, score, opt, user, dup, fault).0) <==> !Wraps(d, t, m, score, opt, user, dup, fault)
  {
    hide Agree, Zadd, ScoreText, ZSet.Reindex, CacheAfter, ZSet.MemberKey, NameOk, ZSet.ScoreOf, IsMemberKey, KvCache.Live,
      ZSet.TableOk, Store.VersionsOk;
    ZaddByOutcome(d, t, m, score, opt, user, dup, fault);
    var key := ZSet.MemberKey(t, m);
    var was := ZSet.ScoreOf(d.store, t, m);
    var b := ZSet.NewScore(ZSet.ScoreOr0(d.store, t, m), score, opt);
    var (store1, put) := Store.Put(d.store, key, ScoreText(b), 0, 0, user, dup, fault);
    Store.PutEffect(d.store, key, ScoreText(b), 0, 0, user, dup, fault);
    if put.code.Ok? {
      ReindexFrame(store1, t, m, was, b, put.version);
      CachedWrite(d, t, m, b, user, dup, fault, ZSet.Reindex(store1, t, m, was, b, put.version));
    }
  }

  lemma ZremFrame(kv: Store.Kv, t: Bytes, m: Bytes, user: nat, dup: bool, fault: bool)
    requires NameOk(t)
    ensures var (kv', code) := ZSet.Zrem(kv, t, m, user, dup, fault);
      var del := Store.Del(kv, ZSet.MemberKey(t, m), user, dup, fault).1;
      && (forall k :: IsMemberKey(k) && k != ZSet.MemberKey(t, m) ==> SameAt(kv, kv', k))
      && ((code == ZSet.Ok && !del.refused) || SameAt(kv, kv', ZSet.MemberKey(t, m)))
  {
    hide IsMemberKey, ZSet.IndexKey, ZSet.MemberKey, NameOk, ParseScore;
    KeyKinds(t, m, ZSet.ScoreOr0(kv, t, m));
  }

  lemma ZremCacheKeeps(d: Db, t: Bytes, m: Bytes, user: nat, dup: bool, fault: bool)
    requires Agree(d) && NameOk(t)
    ensures Agree(Zrem(d, t, m, user, dup, fault).0)
  {
    hide ZSet.Zrem, Store.Del, NameOk, KvCache.Live, IsMemberKey;
    var d' := Zrem(d, t, m, user, dup, fault).0;
    var key := ZSet.MemberKey(t, m);
    assert |key| == |t| + 1 + |m|;
    KeyKinds(t, m, 0);
    ZremFrame(d.store, t, m, user, dup, fault);
    assert d'.cache - {key} == d.cache - {key};
    EntryExact(d, d', key);
  }

  lemma ZscoreKeeps(d: Db, t: Bytes, m: Bytes)
    requires Inv(d) && NameOk(t)
    ensures Inv(Zscore(d, t, m).0)
  {
    hide IsMemberKey, NameOk, KvCache.Live, ZSet.TableOk;
    var d' := Zscore(d, t, m).0;
    var key := ZSet.MemberKey(t, m);
    assert |key| == |t| + 1 + |m|;
    KeyKinds(t, m, 0);
    CurrentIsStored(d, t, m);
    assert d'.cache - {key} == d.cache - {key};
    EntryExact(d, d', key);
  }

  // ---------------------------------------------------------------- runs

  datatype Op =
    | OpSet(op: ZSet.Op)
    | OpScore(table: Bytes, member: Bytes)
    | OpEvict(keys: set<Bytes>)
    | OpClock(seconds: nat)

  function SetStep(d: Db, op: ZSet.Op): (Db, ZSet.Code) {
    if !ZSet.Accepted(op) then (d, ZSet.Rejected)
    else
      match op
      case OpAdd(t, m, score, opt, user, dup, fault) => Zadd(d, t, m, score, opt, user, dup, fault)
      case OpRem(t, m, user, dup, fault) => Zrem(d, t, m, user, dup, fault)
  }

  /** The cache may drop entries at any time. */
  function Step(d: Db, op: Op): Db {
    match op
    case OpSet(z) => SetStep(d, z).0
    case OpScore(t, m) => if NameOk(t) && m != [] then Zscore(d, t, m).0 else d
    case OpEvict(keys) => d.(cache := d.cache - keys)
    case OpClock(seconds) => d.(now := d.now + seconds)
  }

  /** Neither a harmful refused write nor a version that wraps under a cached member. */
  predicate Clean(d: Db, op: Op) {
    op.OpSet? ==>
      && ZSet.Harmless(d.store, op.op)
      && (op.op.OpAdd? ==> !Wraps(d, op.op.table, op.op.member, op.op.score, op.op.opt, op.op.user, op.op.dup, op.op.fault))
  }

  lemma SetStepKeeps(d: Db, op: ZSet.Op, scores: ZSet.Scores)
    requires Inv(d) && ZSet.Holds(d.store, scores) && Clean(d, OpSet(op))
    ensures var (d', code) := SetStep(d, op);
      Inv(d') && (d'.store, code) == ZSet.Step(d.store, op) && ZSet.Holds(d'.store, ZSet.SpecStep(scores, op, code))
  {
    hide ZSet.Inv, Agree, ZSet.Holds, ZSet.Harmless, Wraps, Zadd, ZSet.Zadd, ZSet.Zrem, ZSet.SpecStep, NameOk, Is64, Store.Del;
    ZSet.StepHolds(d.store, scores, op);
    if ZSet.Accepted(op) {
      if op.OpAdd? {
        ZaddRefines(d, op.table, op.member, op.score, op.opt, op.user, op.dup, op.fault);
        ZaddCacheExact(d, op.table, op.member, op.score, op.opt, op.user, op.dup, op.fault);
      } else {
        ZremCacheKeeps(d, op.table, op.member, op.user, op.dup, op.fault);
      }
    }
  }

  function SpecStep(scores: ZSet.Scores, d: Db, op: Op): ZSet.Scores {
    if op.OpSet? then ZSet.SpecStep(scores, op.op, SetStep(d, op.op).1) else scores
  }

  lemma StepKeeps(d: Db, op: Op, scores: ZSet.Scores)
    requires Inv(d) && ZSet.Holds(d.store, scores) && Clean(d, op)
    ensures Inv(Step(d, op)) && ZSet.Holds(Step(d, op).store, SpecStep(scores, d, op))
  {
    match op
    case OpSet(z) => SetStepKeeps(d, z, scores);
    case OpScore(t, m) =>
      if NameOk(t) && m != [] {
        ZscoreKeeps(d, t, m);
      }
    case OpEvict(keys) =>
    case OpClock(seconds) =>
  }

  function Run(d: Db, ops: seq<Op>): Db
    decreases |ops|
  {
    if ops == [] then d else Run(Step(d, ops[0]), ops[1..])
  }

  function SpecRun(scores: ZSet.Scores, d: Db, ops: seq<Op>): ZSet.Scores
    decreases |ops|
  {
    if ops == [] then scores else SpecRun(SpecStep(scores, d, ops[0]), Step(d, ops[0]), ops[1..])
  }

  predicate CleanRun(d: Db, ops: seq<Op>)
    decreases |ops|
  {
    ops == [] || (Clean(d, ops[0]) && CleanRun(Step(d, ops[0]), ops[1..]))
  }

  /** After every clean run through the cache, with evictions and clock ticks at any point,
      the two indexes are the graph of the member-to-score map the operations compute, and
      zscore answers from that map. */
  lemma {:induction false} CachedIndexIsGraph(d: Db, scores: ZSet.Scores, ops: seq<Op>)
    requires Inv(d) && ZSet.Holds(d.store, scores) && CleanRun(d, ops)
    ensures Inv(Run(d, ops)) && ZSet.Holds(Run(d, ops).store, SpecRun(scores, d, ops))
    decreases |ops|
  {
    hide Inv, ZSet.Holds, Clean, Step, SpecStep;
    if ops != [] {
      StepKeeps(d, ops[0], scores);
      CachedIndexIsGraph(Step(d, ops[0]), SpecStep(scores, d, ops[0]), ops[1..]);
    }
  }

  lemma ZscoreAnswers(d: Db, scores: ZSet.Scores, t: Bytes, m: Bytes)
    requires Inv(d) && ZSet.Holds(d.store, scores) && NameOk(t)
    ensures var answer := Zscore(d, t, m).1;
      && (answer.Some? <==> (t, m) in scores)
      && (answer.Some? ==> ParseScore(answer.value.0) == Some(scores[(t, m)]))
  {
  }

  // ---------------------------------------------------------------- a version that wraps

  /** Writing one index entry leaves the member's own entry. */
  lemma MemberKept(kv: Store.Kv, t: Bytes, m: Bytes, was: Option<int>, score: int, version: nat)
    requires NameOk(t)
    ensures SameAt(kv, ZSet.Reindex(kv, t, m, was, score, version), ZSet.MemberKey(t, m))
  {
    hide IsMemberKey, ZSet.Reindex, ZSet.MemberKey;
    KeyKinds(t, m, score);
    ReindexFrame(kv, t, m, was, score, version);
  }

  lemma FirstAdd(t: Bytes, m: Bytes, a: int)
    requires NameOk(t) && |t| + |m| + 2 < KvCache.KEY_LIMIT && Is64(a)
    ensures var d := Zadd(KvCache.EMPTY_DB, t, m, a, 0, Store.MAX_VERSION, true, false).0; var key := ZSet.MemberKey(t, m);
      && key in d.store && d.store[key] == Store.Entry(ScoreText(a), Store.MAX_VERSION, 0, 0)
      && d == KvCache.EMPTY_DB.(store := d.store, cache := map[key := KvCache.Cached(ScoreText(a), Store.MAX_VERSION, 0, 0)])
  {
    hide NameOk, ScoreText, ZSet.Reindex, ZSet.MemberKey, ParseScore;
    var key := ZSet.MemberKey(t, m);
    var none: Store.Kv := map[];
    MemberKept(none[key := Store.Entry(ScoreText(a), Store.MAX_VERSION, 0, 0)], t, m, None, a, Store.MAX_VERSION);
    assert KvCache.Trailer(ScoreText(a), Store.MAX_VERSION, 0, 0) == KvCache.Cached(ScoreText(a), Store.MAX_VERSION, 0, 0);
    var empty: map<Bytes, KvCache.Cached> := map[];
    assert forall c :: empty[key := c] == map[key := c];
  }

  /** From an empty database, a binlog zadd with the last version and one plain zadd with another
      score: the storage has the new score and zscore still answers the old one. */
  lemma ZsetWrapExample(t: Bytes, m: Bytes, a: int, b: int)
    requires NameOk(t) && |t| + |m| + 2 < KvCache.KEY_LIMIT && Is64(a) && Is64(b) && a != b
    ensures var d := Zadd(Zadd(KvCache.EMPTY_DB, t, m, a, 0, Store.MAX_VERSION, true, false).0, t, m, b, 0, 0, false, false).0;
      && Stored(d, t, m) == Some((ScoreText(b), 1))
      && Zscore(d, t, m).1 == Some((ScoreText(a), Store.MAX_VERSION))
  {
    hide NameOk, ScoreText, ZSet.Reindex, ZSet.MemberKey, ParseScore;
    FirstAdd(t, m, a);
    ParseScoreText(a);
    TextNotEmpty(a);
    var d1 := Zadd(KvCache.EMPTY_DB, t, m, a, 0, Store.MAX_VERSION, true, false).0;
    var key := ZSet.MemberKey(t, m);
    MemberKept(d1.store[key := Store.Entry(ScoreText(b), 1, 0, 0)], t, m, Some(a), b, 1);
  }

  lemma TextNotEmpty(x: int)
    ensures ScoreText(x) != []
  {
  }
}
