/** Sorted sets of hustdb.cpp: each member is stored once under its name with its score as
    text, and once in an index whose key holds the score in front of the member. */
module ZSet {
  import opened Bytes
  import opened Decimal
  import opened ZSetScore
  import opened QueueKeys
  import Store

  const ZSET_IN: byte := 3
  const ZSET_TB: byte := 124

  /** get_inner_tbkey: table, kind, optional score text, member. */
  function InnerKey(table: Bytes, kind: byte, added: Bytes, member: Bytes): Bytes {
    table + [kind] + (added + member)
  }

  function MemberKey(table: Bytes, member: Bytes): Bytes {
    InnerKey(table, ZSET_IN, [], member)
  }

  function IndexKey(table: Bytes, score: int, member: Bytes): Bytes {
    InnerKey(table, ZSET_TB, Score21(score), member)
  }

  datatype Code = Ok | Rejected | BadValue | Storage(code: Store.Code)

  /** Member m of table t at score -7: the kinds are the bytes 3 and 124. */
  lemma KeyExample()
    ensures MemberKey(Ascii("t"), Ascii("m")) == [116, 3, 109]
    ensures IndexKey(Ascii("t"), -7, Ascii("m")) == [116, 124] + ([MINUS] + Zeros(19) + [55] + [109])
  {
    assert Digits(7) == [55];
  }

  /** The stored score of a member. */
  function ScoreOf(kv: Store.Kv, table: Bytes, member: Bytes): Option<int> {
    if MemberKey(table, member) in kv then ParseScore(kv[MemberKey(table, member)].value) else None
  }

  /** opt > 0 adds, opt < 0 subtracts, opt == 0 sets; an absent member counts as 0. */
  function NewScore(current: int, score: int, opt: int): int {
    if opt > 0 then Wrap64(current + score) else if opt < 0 then Wrap64(current - score) else score
  }

  function WriteIndex(kv: Store.Kv, table: Bytes, member: Bytes, score: int, version: nat): Store.Kv {
    Store.Put(kv, IndexKey(table, score, member), ScoreText(score), 0, 0, version, true, false).0
  }

  function DropIndex(kv: Store.Kv, table: Bytes, member: Bytes, score: int): Store.Kv {
    Store.Del(kv, IndexKey(table, score, member), 0, false, false).0
  }

  /** The index part of zadd. */
  function Reindex(kv: Store.Kv, table: Bytes, member: Bytes, was: Option<int>, score: int, version: nat): Store.Kv {
    var kv1 := if was.Some? then DropIndex(kv, table, member, was.value) else kv;
    WriteIndex(kv1, table, member, score, version)
  }

  /** hustdb_zadd behind its parameter checks. `fault` is a storage error of the first write;
      a refused binlog write goes on to the index. */
  function Zadd(kv: Store.Kv, table: Bytes, member: Bytes, score: int, opt: int, user: nat, dup: bool, fault: bool): (Store.Kv, Code) {
    var key := MemberKey(table, member);
    var present := key in kv;
    if present && ScoreOf(kv, table, member).None? then (kv, BadValue)
    else
      var current := if present then ScoreOf(kv, table, member).value else 0;
      if present && opt == 0 && current == score && kv[key].version >= user then (kv, Ok)
      else
        var target := NewScore(current, score, opt);
        var (kv1, r) := Store.Put(kv, key, ScoreText(target), 0, 0, user, dup, fault);
        if !r.code.Ok? then (kv1, Storage(r.code))
        else (Reindex(kv1, table, member, if present then Some(current) else None, target, r.version), Ok)
  }

  /** hustdb_zrem behind its parameter checks. */
  function Zrem(kv: Store.Kv, table: Bytes, member: Bytes, user: nat, dup: bool, fault: bool): (Store.Kv, Code) {
    var key := MemberKey(table, member);
    if key in kv && ScoreOf(kv, table, member).None? then (kv, BadValue)
    else
      var current := if key in kv then ScoreOf(kv, table, member).value else 0;
      var (kv1, r) := Store.Del(kv, key, user, dup, fault);
      if !r.code.Ok? then (kv1, Storage(r.code))
      else (DropIndex(kv1, table, member, current), Ok)
  }

  // ---------------------------------------------------------------- keys

  predicate IsKind(b: byte) {
    b == ZSET_IN || b == ZSET_TB
  }

  predicate NoKind(t: Bytes) {
    forall i :: 0 <= i < |t| ==> !IsKind(t[i])
  }

  /** The position of the first kind byte. */
  function KindAt(s: Bytes): nat {
    if s == [] || IsKind(s[0]) then 0 else 1 + KindAt(s[1..])
  }

  lemma {:induction false} KindAtIs(t: Bytes, k: byte, x: Bytes)
    requires NoKind(t) && IsKind(k)
    ensures KindAt(t + [k] + x) == |t|
  {
    if t != [] {
      assert (t + [k] + x)[1..] == t[1..] + [k] + x;
      KindAtIs(t[1..], k, x);
    }
  }

  /** Table names contain neither kind byte, so the kind splits an inner key. */
  lemma InnerKeyInjective(t: Bytes, k: byte, x: Bytes, u: Bytes, l: byte, y: Bytes)
    requires NoKind(t) && NoKind(u) && IsKind(k) && IsKind(l)
    requires t + [k] + x == u + [l] + y
    ensures t == u && k == l && x == y
  {
    var s, v := t + [k] + x, u + [l] + y;
    KindAtIs(t, k, x);
    KindAtIs(u, l, y);
    assert t == s[..|t|] == v[..|u|] == u;
    assert k == s[|t|] == v[|u|] == l;
    assert x == s[|t| + 1..] == v[|u| + 1..] == y;
  }

  lemma TableBytes(t: Bytes)
    requires NameOk(t)
    ensures NoKind(t)
  {
  }

  lemma MemberKeyInjective(t: Bytes, m: Bytes, u: Bytes, n: Bytes)
    requires NameOk(t) && NameOk(u) && MemberKey(t, m) == MemberKey(u, n)
    ensures t == u && m == n
  {
    TableBytes(t);
    TableBytes(u);
    assert [] + m == m && [] + n == n;
    InnerKeyInjective(t, ZSET_IN, m, u, ZSET_IN, n);
  }

  /** An index key names its table, score and member. */
  lemma IndexKeyInjective(t: Bytes, a: int, m: Bytes, u: Bytes, b: int, n: Bytes)
    requires NameOk(t) && NameOk(u) && Is64(a) && Is64(b) && IndexKey(t, a, m) == IndexKey(u, b, n)
    ensures t == u && a == b && m == n
  {
    hide Score21;
    TableBytes(t);
    TableBytes(u);
    var x, y := Score21(a) + m, Score21(b) + n;
    InnerKeyInjective(t, ZSET_TB, x, u, ZSET_TB, y);
    Score21Length(a);
    Score21Length(b);
    assert x[..WIDTH] == Score21(a) && y[..WIDTH] == Score21(b);
    assert x[WIDTH..] == m && y[WIDTH..] == n;
    Score21Injective(a, b);
  }

  lemma KindsApart(t: Bytes, m: Bytes, u: Bytes, b: int, n: Bytes)
    requires NameOk(t) && NameOk(u)
    ensures MemberKey(t, m) != IndexKey(u, b, n)
  {
    if MemberKey(t, m) == IndexKey(u, b, n) {
      TableBytes(t);
      TableBytes(u);
      InnerKeyInjective(t, ZSET_IN, [] + m, u, ZSET_TB, Score21(b) + n);
    }
  }

  // ---------------------------------------------------------------- agreement

  /** Stored scores are texts of 64-bit numbers, and the index has an entry for a score and a
      member exactly when that is the member's score. */
  ghost predicate TableOk(kv: Store.Kv, t: Bytes) {
    && (forall m :: MemberKey(t, m) in kv ==> ScoreOf(kv, t, m).Some? && Is64(ScoreOf(kv, t, m).value))
    && (forall m, x :: Is64(x) ==> (IndexKey(t, x, m) in kv <==> ScoreOf(kv, t, m) == Some(x)))
  }

  ghost predicate Inv(kv: Store.Kv) {
    Store.VersionsOk(kv) && forall t :: NameOk(t) ==> TableOk(kv, t)
  }

  /** Each member has exactly one index entry, at its score; other members have none. */
  lemma OneEntryPerMember(kv: Store.Kv, t: Bytes, m: Bytes)
    requires Inv(kv) && NameOk(t)
    ensures MemberKey(t, m) in kv ==>
      exists x :: Is64(x) && IndexKey(t, x, m) in kv && ScoreOf(kv, t, m) == Some(x)
                  && forall y :: Is64(y) && IndexKey(t, y, m) in kv ==> y == x
    ensures MemberKey(t, m) !in kv ==> forall y :: Is64(y) ==> IndexKey(t, y, m) !in kv
  {
  }

  // ---------------------------------------------------------------- steps

  /** The score of one member changed from `was` to `now`, and its index entry with it. */
  ghost predicate Moved(kv: Store.Kv, kv': Store.Kv, t: Bytes, m: Bytes, now: Option<int>) {
    && (forall u, n :: NameOk(u) ==>
          ScoreOf(kv', u, n) == (if u == t && n == m then now else ScoreOf(kv, u, n)))
    && (forall u, n :: NameOk(u) && !(u == t && n == m) ==> (MemberKey(u, n) in kv' <==> MemberKey(u, n) in kv))
    && (MemberKey(t, m) in kv' <==> now.Some?)
    && (forall u, x, n :: NameOk(u) && Is64(x) ==>
          (IndexKey(u, x, n) in kv' <==> if u == t && n == m then now == Some(x) else IndexKey(u, x, n) in kv))
  }

  lemma MovedKeeps(kv: Store.Kv, kv': Store.Kv, t: Bytes, m: Bytes, now: Option<int>)
    requires Inv(kv) && NameOk(t) && Store.VersionsOk(kv')
    requires Moved(kv, kv', t, m, now) && (now.Some? ==> Is64(now.value))
    ensures Inv(kv')
  {
  }

  /** A write of the member's key followed by the removal of the old index entry and the
      insertion of the new one. */
  lemma ReindexMoves(kv: Store.Kv, t: Bytes, m: Bytes, b: int, e: Store.Entry)
    requires Inv(kv) && NameOk(t) && Is64(b) && e.value == ScoreText(b) && 1 <= e.version <= Store.MAX_VERSION
    ensures var kv' := Reindex(kv[MemberKey(t, m) := e], t, m, ScoreOf(kv, t, m), b, e.version);
      Moved(kv, kv', t, m, Some(b)) && Store.VersionsOk(kv')
  {
    hide MemberKey, IndexKey, ParseScore, NameOk, Is64, ScoreText;
    assert TableOk(kv, t);
    ParseScoreText(b);
    KeysApart(t, m, b);
    if ScoreOf(kv, t, m).Some? { KeysApart(t, m, ScoreOf(kv, t, m).value); }
    assert MemberKey(t, m) !in kv ==> IndexKey(t, b, m) !in kv;
  }

  lemma NotMoved(kv: Store.Kv, t: Bytes, m: Bytes)
    requires Inv(kv) && NameOk(t) && MemberKey(t, m) in kv
    ensures Moved(kv, kv, t, m, ScoreOf(kv, t, m))
  {
  }

  /** The keys written for one member are not keys of another one. */
  lemma KeysApart(t: Bytes, m: Bytes, x: int)
    requires NameOk(t) && Is64(x)
    ensures forall u, n :: NameOk(u) && !(u == t && n == m) ==> MemberKey(u, n) != MemberKey(t, m)
    ensures forall u, n :: NameOk(u) ==> MemberKey(u, n) != IndexKey(t, x, m)
    ensures forall u, y, n :: NameOk(u) ==> IndexKey(u, y, n) != MemberKey(t, m)
    ensures forall u, y, n :: NameOk(u) && Is64(y) && !(u == t && n == m && y == x) ==> IndexKey(u, y, n) != IndexKey(t, x, m)
  {
    hide MemberKey, IndexKey, NameOk, Is64;
    forall u, n | NameOk(u) && !(u == t && n == m) ensures MemberKey(u, n) != MemberKey(t, m) {
      if MemberKey(u, n) == MemberKey(t, m) { MemberKeyInjective(u, n, t, m); }
    }
    forall u, n | NameOk(u) ensures MemberKey(u, n) != IndexKey(t, x, m) { KindsApart(u, n, t, x, m); }
    forall u, y, n | NameOk(u) ensures IndexKey(u, y, n) != MemberKey(t, m) { KindsApart(t, m, u, y, n); }
    forall u, y, n | NameOk(u) && Is64(y) && !(u == t && n == m && y == x) ensures IndexKey(u, y, n) != IndexKey(t, x, m) {
      if IndexKey(u, y, n) == IndexKey(t, x, m) { IndexKeyInjective(u, y, n, t, x, m); }
    }
  }

  lemma RemovalMoves(kv: Store.Kv, t: Bytes, m: Bytes)
    requires Inv(kv) && NameOk(t) && MemberKey(t, m) in kv
    ensures ScoreOf(kv, t, m).Some?
    ensures Moved(kv, kv - {MemberKey(t, m)} - {IndexKey(t, ScoreOf(kv, t, m).value, m)}, t, m, None)
  {
    hide MemberKey, IndexKey, ParseScore, NameOk, Is64, Store.VersionsOk;
    assert TableOk(kv, t);
    KeysApart(t, m, ScoreOf(kv, t, m).value);
  }

  // ---------------------------------------------------------------- exact conditions

  /** A binlog write that is older than the stored member: it answers Ok and changes nothing
      in the member's entry. */
  predicate Refused(kv: Store.Kv, table: Bytes, member: Bytes, user: nat, dup: bool) {
    && MemberKey(table, member) in kv && dup && 0 < user <= Store.MAX_VERSION
    && !Store.BinlogValid(user, kv[MemberKey(table, member)].version)
  }

  /** The index entry is dropped and written again although the member keeps its score. */
  lemma RefusedAdd(kv: Store.Kv, t: Bytes, m: Bytes, b: int, version: nat)
    requires Inv(kv) && NameOk(t) && Is64(b) && MemberKey(t, m) in kv && 1 <= version <= Store.MAX_VERSION
    ensures var kv' := Reindex(kv, t, m, ScoreOf(kv, t, m), b, version);
      && (Inv(kv') <==> Some(b) == ScoreOf(kv, t, m))
      && (Some(b) == ScoreOf(kv, t, m) ==> Moved(kv, kv', t, m, Some(b)) && Store.VersionsOk(kv'))
  {
    hide MemberKey, IndexKey, ParseScore, NameOk, ScoreText;
    assert TableOk(kv, t);
    var a := ScoreOf(kv, t, m).value;
    var kv' := Reindex(kv, t, m, Some(a), b, version);
    KeysApart(t, m, a);
    KeysApart(t, m, b);
    if a == b {
      assert Moved(kv, kv', t, m, Some(a));
      MovedKeeps(kv, kv', t, m, Some(a));
    } else {
      assert IndexKey(t, b, m) in kv' && ScoreOf(kv', t, m) == Some(a);
      assert !TableOk(kv', t);
    }
  }

  function ScoreOr0(kv: Store.Kv, table: Bytes, member: Bytes): int {
    var s := ScoreOf(kv, table, member);
    if s.Some? then s.value else 0
  }

  /** zadd in terms of what the storage did with the member's key. */
  lemma ZaddByOutcome(kv: Store.Kv, t: Bytes, m: Bytes, score: int, opt: int, user: nat, dup: bool, fault: bool)
    requires Inv(kv) && NameOk(t) && Is64(score)
    ensures var (kv', r) := Zadd(kv, t, m, score, opt, user, dup, fault);
      var b := NewScore(ScoreOr0(kv, t, m), score, opt);
      var put := Store.Put(kv, MemberKey(t, m), ScoreText(b), 0, 0, user, dup, fault);
      && Is64(b) && r != BadValue && Store.VersionsOk(kv)
      && (ScoreOf(kv, t, m).Some? <==> MemberKey(t, m) in kv)
      && (if MemberKey(t, m) in kv && opt == 0 && ScoreOr0(kv, t, m) == score && kv[MemberKey(t, m)].version >= user then
            kv' == kv && r == Ok && ScoreOf(kv, t, m) == Some(b)
          else if !put.1.code.Ok? then kv' == put.0 && r == Storage(put.1.code)
          else kv' == Reindex(put.0, t, m, ScoreOf(kv, t, m), b, put.1.version) && r == Ok)
  {
  }

  /** The score a zadd asks for, up to the wrap-around of 64 bits: opt 0 sets it, a positive opt
      adds to the member's score, a negative one subtracts from it. */
  lemma NewScoreIs(current: int, score: int, opt: int)
    ensures opt == 0 ==> NewScore(current, score, opt) == score
    ensures opt > 0 ==> NewScore(current, score, opt) == Wrap64(current + score)
    ensures opt < 0 ==> NewScore(current, score, opt) == Wrap64(current - score)
  {
  }

  /** What zadd does: a refused write keeps the agreement only if it does not change the
      score; any other zadd that answers Ok gives the member its new score in both indexes
      and touches no other member; an error changes nothing. */
  lemma ZaddEffect(kv: Store.Kv, t: Bytes, m: Bytes, score: int, opt: int, user: nat, dup: bool, fault: bool)
    requires Inv(kv) && NameOk(t) && Is64(score)
    ensures var (kv', r) := Zadd(kv, t, m, score, opt, user, dup, fault);
      var b := NewScore(ScoreOr0(kv, t, m), score, opt);
      && Is64(b) && r != BadValue
      && (Refused(kv, t, m, user, dup) ==> r == Ok && (Inv(kv') <==> b == ScoreOr0(kv, t, m)))
      && ((Refused(kv, t, m, user, dup) ==> b == ScoreOr0(kv, t, m)) && r == Ok ==>
            Moved(kv, kv', t, m, Some(b)) && Store.VersionsOk(kv'))
      && (r != Ok ==> kv' == kv)
  {
    hide Inv, Zadd, Moved, NameOk, MemberKey, ScoreOf, NewScore, Reindex, ScoreText, Store.Put, Store.VersionsOk;
    ZaddByOutcome(kv, t, m, score, opt, user, dup, fault);
    var b := NewScore(ScoreOr0(kv, t, m), score, opt);
    var key := MemberKey(t, m);
    var (kv1, put) := Store.Put(kv, key, ScoreText(b), 0, 0, user, dup, fault);
    Store.PutEffect(kv, key, ScoreText(b), 0, 0, user, dup, fault);
    PutRefused(kv, key, ScoreText(b), user, dup, fault);
    if key in kv { NotMoved(kv, t, m); }
    if put.refused && put.code.Ok? {
      RefusedAdd(kv, t, m, b, put.version);
    } else if put.code.Ok? {
      ReindexMoves(kv, t, m, b, Store.Entry(ScoreText(b), put.version, 0, 0));
    }
  }

  lemma PutRefused(kv: Store.Kv, key: Bytes, value: Bytes, user: nat, dup: bool, fault: bool)
    requires Store.VersionsOk(kv)
    ensures var r := Store.Put(kv, key, value, 0, 0, user, dup, fault).1;
      && (r.refused && r.code.Ok? <==>
            key in kv && dup && 0 < user <= Store.MAX_VERSION && !Store.BinlogValid(user, kv[key].version))
      && (r.refused ==> 1 <= r.version <= Store.MAX_VERSION)
  {
  }

  /** zadd keeps the two indexes in agreement exactly unless it is a refused binlog write
      that asks for another score. */
  lemma ZaddExact(kv: Store.Kv, t: Bytes, m: Bytes, score: int, opt: int, user: nat, dup: bool, fault: bool)
    requires Inv(kv) && NameOk(t) && Is64(score)
    ensures Inv(Zadd(kv, t, m, score, opt, user, dup, fault).0) <==>
      !(Refused(kv, t, m, user, dup) && NewScore(ScoreOr0(kv, t, m), score, opt) != ScoreOr0(kv, t, m))
  {
    hide Inv, Zadd, Refused, Moved, NameOk, MemberKey, ScoreOf, NewScore;
    ZaddEffect(kv, t, m, score, opt, user, dup, fault);
    var (kv', r) := Zadd(kv, t, m, score, opt, user, dup, fault);
    if !Refused(kv, t, m, user, dup) && r == Ok {
      MovedKeeps(kv, kv', t, m, Some(NewScore(ScoreOr0(kv, t, m), score, opt)));
    }
  }

  lemma ZremByOutcome(kv: Store.Kv, t: Bytes, m: Bytes, user: nat, dup: bool, fault: bool)
    requires Inv(kv) && NameOk(t)
    ensures var (kv', r) := Zrem(kv, t, m, user, dup, fault);
      var del := Store.Del(kv, MemberKey(t, m), user, dup, fault);
      && r != BadValue && Store.VersionsOk(kv)
      && (ScoreOf(kv, t, m).Some? <==> MemberKey(t, m) in kv)
      && (if del.1.code.Ok? then kv' == DropIndex(del.0, t, m, ScoreOr0(kv, t, m)) && r == Ok
          else kv' == del.0 && r == Storage(del.1.code))
  {
  }

  lemma DelRefused(kv: Store.Kv, key: Bytes, user: nat, dup: bool, fault: bool)
    ensures var r := Store.Del(kv, key, user, dup, fault).1;
      && (r.code.Ok? ==> key in kv)
      && (r.refused && r.code.Ok? <==>
            key in kv && dup && 0 < user <= Store.MAX_VERSION && !Store.BinlogValid(user, kv[key].version))
  {
  }

  /** Without its index entry a member that is still there breaks the agreement. */
  lemma RefusedRem(kv: Store.Kv, t: Bytes, m: Bytes)
    requires Inv(kv) && NameOk(t) && MemberKey(t, m) in kv
    ensures !Inv(DropIndex(kv, t, m, ScoreOr0(kv, t, m)))
  {
  }

  lemma RemovalDrops(kv: Store.Kv, t: Bytes, m: Bytes)
    requires Inv(kv) && NameOk(t) && MemberKey(t, m) in kv
    ensures var kv' := DropIndex(kv - {MemberKey(t, m)}, t, m, ScoreOr0(kv, t, m));
      Moved(kv, kv', t, m, None) && Store.VersionsOk(kv')
  {
    hide MemberKey, IndexKey, ParseScore, NameOk, Is64, Moved;
    assert TableOk(kv, t);
    var a := ScoreOf(kv, t, m).value;
    KeysApart(t, m, a);
    RemovalMoves(kv, t, m);
    assert IndexKey(t, a, m) in kv - {MemberKey(t, m)};
  }

  /** What zrem does: a refused removal always breaks the agreement, because only the index
      entry goes; any other one that answers Ok removes the member from both indexes. */
  lemma ZremEffect(kv: Store.Kv, t: Bytes, m: Bytes, user: nat, dup: bool, fault: bool)
    requires Inv(kv) && NameOk(t)
    ensures var (kv', r) := Zrem(kv, t, m, user, dup, fault);
      && r != BadValue
      && (Refused(kv, t, m, user, dup) ==> r == Ok && !Inv(kv'))
      && (!Refused(kv, t, m, user, dup) && r == Ok ==> Moved(kv, kv', t, m, None) && Store.VersionsOk(kv'))
      && (r != Ok ==> kv' == kv)
      && (MemberKey(t, m) !in kv ==> r != Ok)
  {
    hide Inv, Zrem, Moved, NameOk, MemberKey, ScoreOf, DropIndex, Store.Del, Store.VersionsOk;
    ZremByOutcome(kv, t, m, user, dup, fault);
    var key := MemberKey(t, m);
    Store.DelEffect(kv, key, user, dup, fault);
    DelRefused(kv, key, user, dup, fault);
    if key in kv {
      RefusedRem(kv, t, m);
      RemovalDrops(kv, t, m);
    }
  }

  lemma ZremExact(kv: Store.Kv, t: Bytes, m: Bytes, user: nat, dup: bool, fault: bool)
    requires Inv(kv) && NameOk(t)
    ensures Inv(Zrem(kv, t, m, user, dup, fault).0) <==> !Refused(kv, t, m, user, dup)
  {
    hide Inv, Zrem, Refused, Moved, NameOk, MemberKey;
    ZremEffect(kv, t, m, user, dup, fault);
    var (kv', r) := Zrem(kv, t, m, user, dup, fault);
    if !Refused(kv, t, m, user, dup) && r == Ok {
      MovedKeeps(kv, kv', t, m, None);
    }
  }

  /** A plain zadd with a new score leaves the member at the next version. */
  lemma PlainVersion(kv: Store.Kv, t: Bytes, m: Bytes, score: int)
    requires Inv(kv) && NameOk(t) && Is64(score) && ScoreOf(kv, t, m) != Some(score)
    ensures var (kv', r) := Zadd(kv, t, m, score, 0, 0, false, false);
      && Inv(kv') && r == Ok && MemberKey(t, m) in kv'
      && kv'[MemberKey(t, m)].version ==
           if MemberKey(t, m) in kv then Store.NextVersion(kv[MemberKey(t, m)].version) else 1
  {
    ZaddExact(kv, t, m, score, 0, 0, false, false);
    ZaddByOutcome(kv, t, m, score, 0, 0, false, false);
    hide Inv, MemberKey, IndexKey, NameOk, ScoreText, Zadd, ScoreOf, Store.VersionsOk;
    KindsApart(t, m, t, score, m);
    if ScoreOf(kv, t, m).Some? { KindsApart(t, m, t, ScoreOf(kv, t, m).value, m); }
  }

  /** A member written twice has version 2; a binlog removal with version 1 is refused and
      takes the index entry away. */
  lemma RefusedRemovalExample()
    ensures var t, m := [116], [109];
      var kv := Zadd(Zadd(map[], t, m, 7, 0, 0, false, false).0, t, m, 8, 0, 0, false, false).0;
      && Inv(kv) && ScoreOf(kv, t, m) == Some(8) && Refused(kv, t, m, 1, true)
      && Zrem(kv, t, m, 1, true, false).1 == Ok && !Inv(Zrem(kv, t, m, 1, true, false).0)
  {
    hide Inv, Zrem, Zadd, MemberKey, IndexKey, ScoreOf;
    var t, m: Bytes := [116], [109];
    EmptyHolds();
    var kv1 := Zadd(map[], t, m, 7, 0, 0, false, false).0;
    var kv2 := Zadd(kv1, t, m, 8, 0, 0, false, false).0;
    assert ScoreOf(map[], t, m) == None by { EmptyScore(t, m); }
    PlainVersion(map[], t, m, 7);
    ZaddEffect(map[], t, m, 7, 0, 0, false, false);
    PlainVersion(kv1, t, m, 8);
    ZaddEffect(kv1, t, m, 8, 0, 0, false, false);
    ZremEffect(kv2, t, m, 1, true, false);
  }

  lemma EmptyScore(t: Bytes, m: Bytes)
    ensures ScoreOf(map[], t, m) == None
  {
  }

  // ---------------------------------------------------------------- runs

  datatype Op =
    | OpAdd(table: Bytes, member: Bytes, score: int, opt: int, user: nat, dup: bool, fault: bool)
    | OpRem(table: Bytes, member: Bytes, user: nat, dup: bool, fault: bool)

  /** The parameter checks at the head of both operations. */
  predicate Accepted(op: Op) {
    NameOk(op.table) && op.member != [] && op.user < 0xFFFF_FFFF && (op.OpAdd? ==> Is64(op.score))
  }

  /** What is rejected before the storage is asked. */
  lemma RejectedExact(kv: Store.Kv, op: Op)
    ensures Step(kv, op).1 == Rejected <==>
      !NameOk(op.table) || op.member == [] || op.user >= 0xFFFF_FFFF || (op.OpAdd? && !Is64(op.score))
  {
    hide NameOk, MemberKey, ScoreOf, Store.Put, Store.Del, NewScore, Reindex, DropIndex;
  }

  function Step(kv: Store.Kv, op: Op): (Store.Kv, Code) {
    if !Accepted(op) then (kv, Rejected)
    else
      match op
      case OpAdd(t, m, score, opt, user, dup, fault) => Zadd(kv, t, m, score, opt, user, dup, fault)
      case OpRem(t, m, user, dup, fault) => Zrem(kv, t, m, user, dup, fault)
  }

  function Run(kv: Store.Kv, ops: seq<Op>): Store.Kv
    decreases |ops|
  {
    if ops == [] then kv else Run(Step(kv, ops[0]).0, ops[1..])
  }

  /** Not a refused binlog write, unless it is a zadd that leaves the score as it is. */
  predicate Harmless(kv: Store.Kv, op: Op) {
    Accepted(op) && Refused(kv, op.table, op.member, op.user, op.dup) ==>
      op.OpAdd? && NewScore(ScoreOr0(kv, op.table, op.member), op.score, op.opt) == ScoreOr0(kv, op.table, op.member)
  }

  predicate HarmlessRun(kv: Store.Kv, ops: seq<Op>)
    decreases |ops|
  {
    ops == [] || (Harmless(kv, ops[0]) && HarmlessRun(Step(kv, ops[0]).0, ops[1..]))
  }

  /** The two indexes agree in every state of a run. */
  ghost predicate AgreeThroughout(kv: Store.Kv, ops: seq<Op>)
    decreases |ops|
  {
    Inv(kv) && (ops == [] || AgreeThroughout(Step(kv, ops[0]).0, ops[1..]))
  }

  lemma StepExact(kv: Store.Kv, op: Op)
    requires Inv(kv)
    ensures Inv(Step(kv, op).0) <==> Harmless(kv, op)
  {
    hide Inv, Zadd, Zrem, Refused, NameOk, ScoreOf, NewScore, Is64;
    if Accepted(op) {
      if op.OpAdd? {
        ZaddExact(kv, op.table, op.member, op.score, op.opt, op.user, op.dup, op.fault);
      } else {
        ZremExact(kv, op.table, op.member, op.user, op.dup, op.fault);
      }
    }
  }

  /** The indexes agree in every state of a run exactly when it has no harmful refused write. */
  lemma {:induction false} AgreementExact(kv: Store.Kv, ops: seq<Op>)
    requires Inv(kv)
    ensures AgreeThroughout(kv, ops) <==> HarmlessRun(kv, ops)
    decreases |ops|
  {
    hide Inv, Step, Harmless;
    if ops != [] {
      StepExact(kv, ops[0]);
      if Harmless(kv, ops[0]) {
        AgreementExact(Step(kv, ops[0]).0, ops[1..]);
      }
    }
  }

  /** The member-to-score map a run is meant to compute. */
  type Scores = map<(Bytes, Bytes), int>

  function SpecStep(scores: Scores, op: Op, code: Code): Scores {
    if code != Ok then scores
    else
      match op
      case OpAdd(t, m, score, opt, _, _, _) =>
        scores[(t, m) := NewScore(if (t, m) in scores then scores[(t, m)] else 0, score, opt)]
      case OpRem(t, m, _, _, _) => scores - {(t, m)}
  }

  function SpecRun(scores: Scores, kv: Store.Kv, ops: seq<Op>): Scores
    decreases |ops|
  {
    if ops == [] then scores
    else var (kv', code) := Step(kv, ops[0]); SpecRun(SpecStep(scores, ops[0], code), kv', ops[1..])
  }

  /** Both indexes hold exactly the given map. */
  ghost predicate Holds(kv: Store.Kv, scores: Scores) {
    && (forall t, m :: NameOk(t) ==> ScoreOf(kv, t, m) == (if (t, m) in scores then Some(scores[(t, m)]) else None))
    && (forall t, x, m :: NameOk(t) && Is64(x) ==>
          (IndexKey(t, x, m) in kv <==> (t, m) in scores && scores[(t, m)] == x))
  }

  lemma MovedHolds(kv: Store.Kv, kv': Store.Kv, scores: Scores, t: Bytes, m: Bytes, now: Option<int>)
    requires Holds(kv, scores) && Moved(kv, kv', t, m, now) && NameOk(t)
    ensures Holds(kv', if now.Some? then scores[(t, m) := now.value] else scores - {(t, m)})
    ensures ScoreOf(kv, t, m) == if (t, m) in scores then Some(scores[(t, m)]) else None
  {
  }

  lemma AddHolds(kv: Store.Kv, scores: Scores, op: Op)
    requires Inv(kv) && Holds(kv, scores) && Harmless(kv, op)
    requires op.OpAdd? && Accepted(op)
    ensures var (kv', code) := Step(kv, op);
      Inv(kv') && Holds(kv', SpecStep(scores, op, code))
  {
    hide Inv, Zadd, Refused, NameOk, MemberKey, ScoreOf, NewScore, Is64, Store.VersionsOk, Moved, Holds;
    var OpAdd(t, m, score, opt, user, dup, fault) := op;
    ZaddExact(kv, t, m, score, opt, user, dup, fault);
    ZaddEffect(kv, t, m, score, opt, user, dup, fault);
    var (kv', code) := Zadd(kv, t, m, score, opt, user, dup, fault);
    if code == Ok {
      MovedHolds(kv, kv', scores, t, m, Some(NewScore(ScoreOr0(kv, t, m), score, opt)));
    }
  }

  lemma RemHolds(kv: Store.Kv, scores: Scores, op: Op)
    requires Inv(kv) && Holds(kv, scores) && Harmless(kv, op)
    requires op.OpRem? && Accepted(op)
    ensures var (kv', code) := Step(kv, op);
      Inv(kv') && Holds(kv', SpecStep(scores, op, code))
  {
    hide Inv, Zrem, Refused, NameOk, MemberKey, ScoreOf, Is64, Store.VersionsOk, Moved, Holds;
    var OpRem(t, m, user, dup, fault) := op;
    ZremExact(kv, t, m, user, dup, fault);
    ZremEffect(kv, t, m, user, dup, fault);
    var (kv', code) := Zrem(kv, t, m, user, dup, fault);
    if code == Ok {
      MovedHolds(kv, kv', scores, t, m, None);
    }
  }

  lemma StepHolds(kv: Store.Kv, scores: Scores, op: Op)
    requires Inv(kv) && Holds(kv, scores) && Harmless(kv, op)
    ensures var (kv', code) := Step(kv, op);
      Inv(kv') && Holds(kv', SpecStep(scores, op, code))
  {
    hide Inv, Holds, Zadd, Zrem, Refused, Is64, NameOk;
    if Accepted(op) {
      if op.OpAdd? { AddHolds(kv, scores, op); } else { RemHolds(kv, scores, op); }
    }
  }

  /** After every run of zadd and zrem without a harmful refused write, the stored scores are
      the map the operations compute, and the set of index keys is the graph of that map. */
  lemma {:induction false} IndexIsGraph(kv: Store.Kv, scores: Scores, ops: seq<Op>)
    requires Inv(kv) && Holds(kv, scores) && HarmlessRun(kv, ops)
    ensures Inv(Run(kv, ops)) && Holds(Run(kv, ops), SpecRun(scores, kv, ops))
    decreases |ops|
  {
    hide Inv, Step, SpecStep, Holds, Harmless;
    if ops != [] {
      StepHolds(kv, scores, ops[0]);
      var (kv', code) := Step(kv, ops[0]);
      IndexIsGraph(kv', SpecStep(scores, ops[0], code), ops[1..]);
    }
  }

  lemma EmptyHolds()
    ensures Inv(map[]) && Holds(map[], map[])
  {
  }

  // ---------------------------------------------------------------- arithmetic of scores

  /** A zadd that answers Ok and is not a refused write leaves the member at the given score, at
      its old one plus the given, or at its old one minus the given. */
  lemma ZaddScore(kv: Store.Kv, t: Bytes, m: Bytes, score: int, opt: int, user: nat, dup: bool, fault: bool)
    requires Inv(kv) && NameOk(t) && Is64(score) && !Refused(kv, t, m, user, dup)
    requires Zadd(kv, t, m, score, opt, user, dup, fault).1 == Ok
    ensures var was := ScoreOr0(kv, t, m); var now := ScoreOf(Zadd(kv, t, m, score, opt, user, dup, fault).0, t, m);
      && (opt == 0 ==> now == Some(score))
      && (opt > 0 && Is64(was + score) ==> now == Some(was + score))
      && (opt < 0 && Is64(was - score) ==> now == Some(was - score))
      && (opt > 0 ==> now == Some(Wrap64(was + score)))
      && (opt < 0 ==> now == Some(Wrap64(was - score)))
  {
    hide Inv, Zadd, NameOk, MemberKey, NewScore, Store.VersionsOk, Refused;
    ZaddEffect(kv, t, m, score, opt, user, dup, fault);
    NewScoreIs(ScoreOr0(kv, t, m), score, opt);
  }

  /** What was done to a member since it was last set or removed. */
  datatype Tally = Gone | Tally(base: int, added: int, taken: int)

  predicate Concerns(kv: Store.Kv, op: Op, t: Bytes, m: Bytes) {
    op.table == t && op.member == m && Step(kv, op).1 == Ok
  }

  function Count(w: Tally, op: Op): Tally {
    if op.OpRem? then Gone
    else if op.opt == 0 then Tally(op.score, 0, 0)
    else
      var v := if w.Gone? then Tally(0, 0, 0) else w;
      if op.opt > 0 then v.(added := v.added + op.score) else v.(taken := v.taken + op.score)
  }

  function TallyRun(w: Tally, kv: Store.Kv, ops: seq<Op>, t: Bytes, m: Bytes): Tally
    decreases |ops|
  {
    if ops == [] then w
    else
      TallyRun(if Concerns(kv, ops[0], t, m) then Count(w, ops[0]) else w, Step(kv, ops[0]).0, ops[1..], t, m)
  }

  /** The member's score is its last set value plus later increments minus later decrements. */
  predicate Tallies(kv: Store.Kv, t: Bytes, m: Bytes, w: Tally) {
    match w
    case Gone => ScoreOf(kv, t, m) == None
    case Tally(base, added, taken) => ScoreOf(kv, t, m) == Some(Wrap64(base + added - taken))
  }

  lemma CountStep(kv: Store.Kv, op: Op, w: Tally, t: Bytes, m: Bytes)
    requires Inv(kv) && NameOk(t) && Harmless(kv, op) && Tallies(kv, t, m, w)
    ensures Inv(Step(kv, op).0)
    ensures Tallies(Step(kv, op).0, t, m, if Concerns(kv, op, t, m) then Count(w, op) else w)
  {
    hide Inv, NameOk, Zadd, Zrem, NewScore, MemberKey, Is64, Store.VersionsOk, Refused, ScoreOf, Moved;
    StepExact(kv, op);
    StepMoves(kv, op, t, m);
    if Concerns(kv, op, t, m) && op.OpAdd? {
      NewScoreIs(ScoreOr0(kv, t, m), op.score, op.opt);
      if w.Tally? {
        WrapSum(w.base + w.added - w.taken, op.score);
        WrapSum(w.base + w.added - w.taken, -op.score);
      }
      assert Wrap64(op.score) == op.score by { AcceptedScore(op); }
    }
  }

  lemma AcceptedScore(op: Op)
    requires op.OpAdd? && Accepted(op)
    ensures Wrap64(op.score) == op.score
  {
  }

  /** What one step does to one member's score. */
  lemma StepMoves(kv: Store.Kv, op: Op, t: Bytes, m: Bytes)
    requires Inv(kv) && NameOk(t) && Harmless(kv, op)
    ensures var kv' := Step(kv, op).0;
      ScoreOf(kv', t, m) ==
      if !Concerns(kv, op, t, m) then ScoreOf(kv, t, m)
      else if op.OpRem? then None
      else Some(NewScore(ScoreOr0(kv, t, m), op.score, op.opt))
  {
    hide Inv, NameOk, Zadd, Zrem, NewScore, MemberKey, Is64, Store.VersionsOk, Refused;
    if Accepted(op) {
      match op
      case OpAdd(u, n, score, opt, user, dup, fault) => ZaddEffect(kv, u, n, score, opt, user, dup, fault);
      case OpRem(u, n, user, dup, fault) => ZremEffect(kv, u, n, user, dup, fault);
    }
  }

  /** Over every run without a harmful refused write. */
  lemma {:induction false} ScoreIsTally(kv: Store.Kv, w: Tally, ops: seq<Op>, t: Bytes, m: Bytes)
    requires Inv(kv) && NameOk(t) && HarmlessRun(kv, ops) && Tallies(kv, t, m, w)
    ensures Tallies(Run(kv, ops), t, m, TallyRun(w, kv, ops, t, m))
    decreases |ops|
  {
    hide Inv, NameOk, Step, Harmless, Tallies, Count, Concerns;
    if ops != [] {
      CountStep(kv, ops[0], w, t, m);
      ScoreIsTally(Step(kv, ops[0]).0, if Concerns(kv, ops[0], t, m) then Count(w, ops[0]) else w, ops[1..], t, m);
    }
  }
}
