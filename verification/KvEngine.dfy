/** hustdb_get/put/del and hustdb_zadd/zscore/zrem as they update storage and cache. */
module KvEngine {
  import opened Bytes
  import opened ZSetScore
  import Store
  import KvCache
  import ZSet
  import ZSetCache

  /** m_storage: the versioned storage behind an abstract contract. */
  class Storage {
    var kv: Store.Kv

    constructor ()
      ensures kv == map[]
    {
      kv := map[];
    }

    method Put(key: Bytes, value: Bytes, compress: nat, expires: nat, user: nat, dup: bool, fault: bool) returns (r: Store.Outcome)
      modifies this
      ensures (kv, r) == Store.Put(old(kv), key, value, compress, expires, user, dup, fault)
    {
      var result := Store.Put(kv, key, value, compress, expires, user, dup, fault);
      kv, r := result.0, result.1;
    }

    method Del(key: Bytes, user: nat, dup: bool, fault: bool) returns (r: Store.Outcome)
      modifies this
      ensures (kv, r) == Store.Del(old(kv), key, user, dup, fault)
    {
      var result := Store.Del(kv, key, user, dup, fault);
      kv, r := result.0, result.1;
    }
  }

  /** m_mdb: the read cache. */
  class Mdb {
    var entries: map<Bytes, KvCache.Cached>

    constructor ()
      ensures entries == map[]
    {
      entries := map[];
    }

    /** A hit is a live entry with more than a trailer. */
    method Get(key: Bytes, now: nat) returns (r: Option<KvCache.Cached>)
      ensures r == if key in entries && KvCache.Live(entries[key], now) && entries[key].value != [] then Some(entries[key]) else None
    {
      r := None;
      if key in entries && KvCache.Live(entries[key], now) && entries[key].value != [] {
        r := Some(entries[key]);
      }
    }

    method Put(key: Bytes, c: KvCache.Cached)
      modifies this
      ensures entries == old(entries)[key := c]
    {
      entries := entries[key := c];
    }

    method Del(key: Bytes)
      modifies this
      ensures entries == old(entries) - {key}
    {
      entries := entries - {key};
    }
  }

  class HustDb {
    const storage: Storage
    const mdb: Mdb
    var now: nat
    var started: nat
    var maxTtl: nat
    var enabled: bool
    var over: bool

    constructor (now: nat, maxTtl: nat, enabled: bool)
      ensures fresh(storage) && fresh(mdb)
      ensures State() == KvCache.Db(map[], map[], now, now, maxTtl, enabled, false)
    {
      storage := new Storage();
      mdb := new Mdb();
      this.now, started, this.maxTtl, this.enabled, over := now, now, maxTtl, enabled, false;
    }

    function State(): KvCache.Db
      reads this, storage, mdb
    {
      KvCache.Db(storage.kv, mdb.entries, now, started, maxTtl, enabled, over)
    }

    method Get(key: Bytes, fault: bool) returns (a: KvCache.Answer)
      modifies storage, mdb
      ensures (State(), a) == KvCache.Get(old(State()), key, fault)
    {
      if key == [] { return KvCache.NoAnswer(KvCache.Rejected); }
      if enabled && |key| < KvCache.KEY_LIMIT {
        var hit := mdb.Get(key, now);
        if hit.Some? {
          return KvCache.Answer(KvCache.Ok, hit.value.value, hit.value.version, hit.value.compress);
        }
      }
      if key !in storage.kv { return KvCache.NoAnswer(KvCache.Storage(Store.NotFound)); }
      var e := storage.kv[key];
      var alive := 0;
      if e.expires > 0 {
        if e.expires <= now {
          var _ := storage.Del(key, 0, false, fault);
          return KvCache.NoAnswer(KvCache.Storage(Store.NotFound));
        }
        alive := e.expires - now;
      }
      if enabled && |key| < KvCache.KEY_LIMIT && |e.value| < KvCache.VALUE_LIMIT {
        mdb.Put(key, KvCache.Trailer(e.value, e.version, e.compress, KvCache.CacheExpiry(State(), alive)));
      }
      return KvCache.Answer(KvCache.Ok, e.value, e.version, e.compress);
    }

    method Put(key: Bytes, value: Bytes, compress: nat, user: nat, ttl: nat, dup: bool, fault: bool) returns (code: KvCache.Code)
      modifies storage, mdb
      ensures (State(), code) == KvCache.Put(old(State()), key, value, compress, user, ttl, dup, fault)
    {
      hide KvCache.CacheExpiry, Store.Put;
      if key == [] || value == [] || user >= KvCache.VERSION_LIMIT { return KvCache.Rejected; }
      if over { return KvCache.OverThreshold; }
      var expires := 0;
      if !(ttl == 0 || ttl > maxTtl) {
        expires := now + ttl;
      }
      var cacheExpiry := KvCache.CacheExpiry(State(), ttl);
      var r := storage.Put(key, value, compress, expires, user, dup, fault);
      if r.code != Store.Ok { return KvCache.Storage(r.code); }
      if ((!dup && r.version > 1) || (dup && user == r.version && !r.refused)) && enabled && |key| < KvCache.KEY_LIMIT {
        if |value| < KvCache.VALUE_LIMIT {
          mdb.Put(key, KvCache.Trailer(value, r.version, compress, cacheExpiry));
        } else {
          mdb.Del(key);
        }
      }
      return KvCache.Ok;
    }

    method Del(key: Bytes, user: nat, dup: bool, fault: bool) returns (code: KvCache.Code)
      modifies storage, mdb
      ensures (State(), code) == KvCache.Del(old(State()), key, user, dup, fault)
    {
      hide Store.Del;
      if key == [] || user >= KvCache.VERSION_LIMIT { return KvCache.Rejected; }
      var r := storage.Del(key, user, dup, fault);
      if r.code != Store.Ok { return KvCache.Storage(r.code); }
      if !r.refused && enabled && |key| < KvCache.KEY_LIMIT {
        mdb.Del(key);
      }
      return KvCache.Ok;
    }

    /** The member's text and version, from the cache if it is there. */
    method ReadMember(table: Bytes, member: Bytes) returns (r: Option<(Bytes, nat)>, hit: bool)
      ensures r == ZSetCache.Current(State(), table, member)
      ensures hit <==> ZSetCache.Hit(State(), table, member)
    {
      var key := ZSet.MemberKey(table, member);
      if enabled && |table| + |member| + 2 < KvCache.KEY_LIMIT {
        var cached := mdb.Get(key, now);
        if cached.Some? {
          return Some((cached.value.value, cached.value.version)), true;
        }
      }
      hit := false;
      if key in storage.kv {
        r := Some((storage.kv[key].value, storage.kv[key].version));
      } else {
        r := None;
      }
    }

    method Zadd(table: Bytes, member: Bytes, score: int, opt: int, user: nat, dup: bool, fault: bool) returns (code: ZSet.Code)
      modifies storage, mdb
      ensures (State(), code) == ZSetCache.Zadd(old(State()), table, member, score, opt, user, dup, fault)
    {
      hide Store.Put, ZSet.MemberKey, ParseScore, ScoreText, ZSetCache.Current, ZSet.Reindex;
      var key := ZSet.MemberKey(table, member);
      var current, _ := ReadMember(table, member);
      var was := 0;
      if current.Some? {
        var parsed := ParseScore(current.value.0);
        if parsed.None? { return ZSet.BadValue; }
        was := parsed.value;
        if opt == 0 && was == score && current.value.1 >= user { return ZSet.Ok; }
      }
      var target := score;
      if opt > 0 {
        target := Wrap64(was + score);
      } else if opt < 0 {
        target := Wrap64(was - score);
      }
      var text := ScoreText(target);
      var r := storage.Put(key, text, 0, 0, user, dup, fault);
      if r.code != Store.Ok { return ZSet.Storage(r.code); }
      if ((!dup && r.version > 1) || (dup && user == r.version && !r.refused)) && enabled
         && |table| + |member| + 2 < KvCache.KEY_LIMIT {
        mdb.Put(key, KvCache.Trailer(text, r.version, 0, 0));
      }
      Reindex(table, member, if current.Some? then Some(was) else None, target, r.version);
      return ZSet.Ok;
    }

    /** The score index: drop the old entry, write the new one. */
    method Reindex(table: Bytes, member: Bytes, was: Option<int>, score: int, version: nat)
      modifies storage
      ensures storage.kv == ZSet.Reindex(old(storage.kv), table, member, was, score, version)
    {
      hide Store.Put, Store.Del, ZSet.IndexKey, ScoreText;
      if was.Some? {
        var _ := storage.Del(ZSet.IndexKey(table, was.value, member), 0, false, false);
      }
      var _ := storage.Put(ZSet.IndexKey(table, score, member), ScoreText(score), 0, 0, version, true, false);
    }

    method Zrem(table: Bytes, member: Bytes, user: nat, dup: bool, fault: bool) returns (code: ZSet.Code)
      modifies storage, mdb
      ensures (State(), code) == ZSetCache.Zrem(old(State()), table, member, user, dup, fault)
    {
      hide Store.Del, ZSet.MemberKey, ParseScore, ZSet.IndexKey;
      var key := ZSet.MemberKey(table, member);
      var was := 0;
      if key in storage.kv {
        var parsed := ParseScore(storage.kv[key].value);
        if parsed.None? { return ZSet.BadValue; }
        was := parsed.value;
      }
      var r := storage.Del(key, user, dup, fault);
      if r.code != Store.Ok { return ZSet.Storage(r.code); }
      if !r.refused && enabled && |table| + |member| + 2 < KvCache.KEY_LIMIT {
        mdb.Del(key);
      }
      var _ := storage.Del(ZSet.IndexKey(table, was, member), 0, false, false);
      return ZSet.Ok;
    }

    method Zscore(table: Bytes, member: Bytes) returns (r: Option<(Bytes, nat)>)
      modifies mdb
      ensures (State(), r) == ZSetCache.Zscore(old(State()), table, member)
    {
      hide ZSet.MemberKey, ZSetCache.Current, ZSetCache.Hit;
      var hit;
      r, hit := ReadMember(table, member);
      if !hit && r.Some? && enabled && |table| + |member| + 2 < KvCache.KEY_LIMIT && |r.value.0| < KvCache.VALUE_LIMIT {
        mdb.Put(ZSet.MemberKey(table, member), KvCache.Trailer(r.value.0, r.value.1, 0, 0));
      }
    }
  }
}
