/** The map of unacknowledged items and the multimap that orders them for redelivery. */
module QueueRedelivery {
  import opened Bytes
  import opened QueueRing
  import opened QueueKeys
  import opened SlotIndex
  import opened QueueModel
  import opened QueueRefinement
  import opened QueueRuns
  import opened QueueSystem
  import opened QueueTheorems
  import opened QueueSeparation

  ghost predicate SortedByTime(list: seq<Due>) {
    forall i, j :: 0 <= i < j < |list| ==> list[i].time <= list[j].time
  }

  ghost predicate TokensDistinct(list: seq<Due>) {
    forall i, j :: 0 <= i < j < |list| ==> list[i].token != list[j].token
  }

  /** Both hold exactly the same (token, time) pairs. */
  ghost predicate SamePairs(info: Info) {
    && (forall d :: d in info.redelivery ==> d.token in info.unacked && info.unacked[d.token] == d.time)
    && (forall t :: t in info.unacked ==> Due(info.unacked[t], t) in info.redelivery)
  }

  ghost predicate Agree(info: Info) {
    SortedByTime(info.redelivery) && TokensDistinct(info.redelivery) && SamePairs(info)
  }

  lemma {:induction false} InsertSorted(list: seq<Due>, d: Due)
    requires SortedByTime(list)
    ensures SortedByTime(InsertDue(list, d))
  {
    if list != [] && d.time >= list[0].time {
      var rest := list[1..];
      InsertSorted(rest, d);
      forall x | x in InsertDue(rest, d) ensures list[0].time <= x.time {
        InsertDueTokens(rest, d, x);
      }
    }
  }

  /** With a clock that does not go back, a new entry comes last: items recorded in one second are
      redelivered in the order in which they were recorded. */
  lemma {:induction false} InsertedLast(list: seq<Due>, d: Due)
    requires forall x :: x in list ==> x.time <= d.time
    ensures InsertDue(list, d) == list + [d]
  {
    if list != [] {
      InsertedLast(list[1..], d);
      assert [list[0]] + (list[1..] + [d]) == list + [d];
    }
  }

  lemma {:induction false} InsertDistinct(list: seq<Due>, d: Due)
    requires TokensDistinct(list) && forall x :: x in list ==> x.token != d.token
    ensures TokensDistinct(InsertDue(list, d))
  {
    if list != [] && d.time >= list[0].time {
      var rest := list[1..];
      InsertDistinct(rest, d);
      forall x | x in InsertDue(rest, d) ensures x.token != list[0].token {
        InsertDueTokens(rest, d, x);
      }
    }
  }

  /** A new unacknowledged item enters both. */
  lemma RememberAgrees(info: Info, token: Bytes, now: nat)
    requires Agree(info) && token !in info.unacked
    ensures Agree(Remember(info, token, now))
  {
    hide InsertDue;
    var d := Due(now, token);
    var more := Remember(info, token, now);
    InsertSorted(info.redelivery, d);
    InsertDistinct(info.redelivery, d);
    forall x ensures x in more.redelivery <==> x == d || x in info.redelivery {
      InsertDueTokens(info.redelivery, d, x);
    }
  }

  lemma {:induction false} EraseSorted(list: seq<Due>, d: Due)
    requires SortedByTime(list)
    ensures SortedByTime(EraseDue(list, d))
  {
    if list != [] && list[0] != d {
      var less := EraseDue(list[1..], d);
      EraseSorted(list[1..], d);
      EraseDueTokens(list[1..], d);
      assert forall x :: x in less ==> x in list[1..];
      assert forall x :: x in list[1..] ==> list[0].time <= x.time;
    }
  }

  lemma {:induction false} EraseDistinct(list: seq<Due>, d: Due)
    requires TokensDistinct(list)
    ensures TokensDistinct(EraseDue(list, d))
  {
    if list != [] && list[0] != d {
      var less := EraseDue(list[1..], d);
      EraseDistinct(list[1..], d);
      EraseDueTokens(list[1..], d);
      assert forall x :: x in less ==> x in list[1..];
      assert forall x :: x in list[1..] ==> x.token != list[0].token;
    }
  }

  lemma {:induction false} EraseMembers(list: seq<Due>, d: Due)
    requires TokensDistinct(list) && d in list
    ensures |EraseDue(list, d)| == |list| - 1
    ensures forall x :: x in EraseDue(list, d) <==> x in list && x != d
  {
    var rest := list[1..];
    assert list == [list[0]] + rest;
    assert list[0] !in rest;
    if list[0] != d {
      EraseMembers(rest, d);
    }
  }

  /** An acknowledgement removes exactly the one matching pair from both. */
  lemma ForgetAgrees(info: Info, token: Bytes)
    requires Agree(info) && token in info.unacked
    ensures var less := Forget(info, token); var gone := Due(info.unacked[token], token);
      && Agree(less)
      && |less.redelivery| == |info.redelivery| - 1
      && (forall d :: d in less.redelivery <==> d in info.redelivery && d != gone)
      && less.unacked.Keys == info.unacked.Keys - {token}
  {
    hide EraseDue;
    var gone := Due(info.unacked[token], token);
    EraseSorted(info.redelivery, gone);
    EraseDistinct(info.redelivery, gone);
    EraseMembers(info.redelivery, gone);
    var less := Forget(info, token);
    forall d | d in less.redelivery ensures d.token != token {
      assert info.unacked[d.token] == d.time;
    }
  }

  /** The front of the multimap is the oldest unacknowledged item, so something is overdue
      exactly when some unacknowledged item has waited for the timeout. */
  lemma OverdueIffTimedOut(e: Engine, name: Bytes)
    requires name in e.index && e.index[name].offset < |e.slots| && Agree(e.index[name])
    ensures Overdue(e, name) <==>
      exists t :: t in e.index[name].unacked &&
        e.now as int - e.index[name].unacked[t] >= e.slots[e.index[name].offset].timeout * 60
    ensures Overdue(e, name) ==>
      var first := e.index[name].redelivery[0];
      first.token in e.index[name].unacked &&
      forall t :: t in e.index[name].unacked ==> first.time <= e.index[name].unacked[t]
  {
  }

  lemma TailOfAgreed(info: Info)
    requires Agree(info) && info.redelivery != []
    ensures var first := info.redelivery[0]; var rest := info.redelivery[1..];
      && SortedByTime(rest) && TokensDistinct(rest)
      && first.token in info.unacked && info.unacked[first.token] == first.time
      && (forall d :: d in rest ==> d.token != first.token)
      && (forall d :: d in info.redelivery <==> d == first || d in rest)
  {
  }

  /** Handing out the oldest item again keeps the agreement exactly when it is recorded
      again in the very second it was first recorded: the map keeps the old time, the
      multimap gets the new one. */
  lemma RedeliverExact(info: Info, now: nat, recorded: bool)
    requires Agree(info) && info.redelivery != []
    ensures var first := info.redelivery[0];
      var rest := info.(redelivery := info.redelivery[1..]);
      Agree(if recorded then Remember(rest, first.token, now) else rest) <==> recorded && now == first.time
  {
    hide InsertDue, SortedByTime, TokensDistinct;
    var first := info.redelivery[0];
    var rest := info.(redelivery := info.redelivery[1..]);
    TailOfAgreed(info);
    if recorded {
      var again := Remember(rest, first.token, now);
      var d := Due(now, first.token);
      InsertSorted(rest.redelivery, d);
      InsertDistinct(rest.redelivery, d);
      forall x ensures x in again.redelivery <==> x == d || x in rest.redelivery {
        InsertDueTokens(rest.redelivery, d, x);
      }
      assert again.unacked == info.unacked;
      assert d in again.redelivery;
    } else {
      assert Due(info.unacked[first.token], first.token) !in rest.redelivery;
    }
  }

  /** An item recorded at second 0 and redelivered at second 60. */
  lemma RedeliveryExample(token: Bytes)
    ensures var info := Info(0, map[token := 0], [Due(0, token)]);
      Agree(info) && !Agree(Remember(info.(redelivery := []), token, 60))
  {
    var info := Info(0, map[token := 0], [Due(0, token)]);
    assert info.redelivery[1..] == [];
    RedeliverExact(info, 60, true);
  }

  // ---------------------------------------------------------------- what a caller sees

  function TokenCount(list: seq<Due>, token: Bytes): nat {
    if list == [] then 0 else (if list[0].token == token then 1 else 0) + TokenCount(list[1..], token)
  }

  lemma {:induction false} EraseCount(list: seq<Due>, d: Due)
    ensures TokenCount(EraseDue(list, d), d.token) == TokenCount(list, d.token) - if d in list then 1 else 0
  {
    if list != [] && list[0] != d {
      EraseCount(list[1..], d);
      assert d in list <==> d in list[1..];
    }
  }

  /** An acknowledgement leaves an entry of its token behind exactly when the multimap has one
      more entry of the token than the one recorded at the time the map holds. */
  lemma StaleExact(info: Info, token: Bytes)
    requires token in info.unacked
    ensures TokenCount(Forget(info, token).redelivery, token) > 0 <==>
      TokenCount(info.redelivery, token) > if Due(info.unacked[token], token) in info.redelivery then 1 else 0
  {
    EraseCount(info.redelivery, Due(info.unacked[token], token));
  }

  /** A get on a queue with ready items answers Missing exactly when the front of the multimap is
      overdue and its item is no longer stored. */
  lemma MissingExact(e: Engine, name: Bytes, worker: Bytes, isAck: bool)
    requires Inv(e) && NameOk(name) && 4 < |worker| <= 32 && IsQueue(e, name)
    requires Highest(ViewOf(e, name)).Some?
    ensures Get(e, name, worker, isAck, false).1.code == Missing <==>
      Overdue(e, name) && Key(name, e.index[name].redelivery[0].token) !in e.store
  {
    hide NameOk, Key, Choose, Highest, FifoOf, Remember, NotReady;
    FindOk(e, name);
    ChooseRefines(e, name);
  }

  // ---------------------------------------------------------------- runs

  ghost predicate AllAgree(e: Engine) {
    forall n :: n in e.index ==> Agree(e.index[n])
  }

  /** The token of a ready item is new to the queue. */
  lemma ReadyTokenIsNew(e: Engine, name: Bytes)
    requires Inv(e) && Apart(e) && IsQueue(e, name) && !Overdue(e, name)
    ensures var (e1, token) := Choose(e, e.index[name].offset, name);
      e1.index == e.index && (token.Some? ==> !Outstanding(e.index[name], token.value))
  {
    hide Token, NameOk, IndexOk, SlotNames, Offsets, Next, Items, ItemKey;
    var s := SlotOf(e, name);
    RealIsCount(e.store, s);
    if Pick(s).Some? {
      var p := Pick(s).value;
      PopTag(s.rings[p]);
      assert Tags(s.rings[p])[0] in Tags(s.rings[p]);
      assert IsReady(e, name, p, Next(s.rings[p].sp));
    }
  }

  lemma GetAgrees(e: Engine, name: Bytes, worker: Bytes, isAck: bool, fault: bool)
    requires Inv(e) && Apart(e) && AllAgree(e)
    requires NameOk(name) && IsQueue(e, name) ==> !Overdue(e, name)
    ensures AllAgree(Get(e, name, worker, isAck, fault).0)
  {
    hide NameOk, Key, Choose, Inv, Agree, Remember, Mapped, Apart;
    MappedOf(e);
    FindOk(e, name);
    if NameOk(name) && IsQueue(e, name) {
      ReadyTokenIsNew(e, name);
      var (e1, token) := Choose(e, e.index[name].offset, name);
      if token.Some? {
        RememberAgrees(e.index[name], token.value, e1.now);
      }
    }
  }

  lemma StepAgrees(s: System, op: Op)
    requires SystemOk(s) && Apart(s.engine) && AllAgree(s.engine) && !Redelivers(s, op)
    ensures AllAgree(Step(s, op).0.engine)
  {
    hide NameOk, Get, Inv, Agree, FindOrCreate, Mapped, Real, RealItem, PurgeKeys, Rebuild, SlotNames, Token, Key, Full, Forget,
      Apart;
    var e := s.engine;
    MappedOf(e);
    match op
    case OpPut(name, _, _, _) => OpenAgrees(e, name);
    case OpGet(name, worker, isAck, fault, _) => OffsetInRange(e, name); GetAgrees(e, name, worker, isAck, fault);
    case OpAck(name, token) =>
      if IsQueue(e, name) && token in e.index[name].unacked { ForgetAgrees(e.index[name], token); }
    case OpRestart => EmptyAgrees();
    case _ =>
  }

  lemma EmptyAgrees()
    ensures forall at: nat :: Agree(Info(at, map[], []))
  {
  }

  lemma OpenAgrees(e: Engine, name: Bytes)
    requires AllAgree(e)
    ensures AllAgree(FindOrCreate(e, name).0)
  {
  }

  predicate NoRedelivery(s: System, ops: seq<Op>)
    decreases |ops|
  {
    ops == [] || (!Redelivers(s, ops[0]) && NoRedelivery(Step(s, ops[0]).0, ops[1..]))
  }

  /** Up to the first redelivery, after any run in which no put takes a tag that is outstanding
      or about to be deleted, the two structures of every queue hold the same pairs. */
  lemma {:induction false} RunAgrees(s: System, ops: seq<Op>)
    requires SystemOk(s) && Separate(s) && AllAgree(s.engine) && FreshRun(s, ops) && NoRedelivery(s, ops)
    ensures AllAgree(Run(s, ops).0.engine)
    decreases |ops|
  {
    hide SystemOk, AllAgree, Step, FreshPut, Redelivers, Apart, PromisesApart;
    if ops != [] {
      StepSeparates(s, ops[0]);
      StepKeepsOk(s, ops[0]);
      StepAgrees(s, ops[0]);
      RunAgrees(Step(s, ops[0]).0, ops[1..]);
    }
  }

  // ---------------------------------------------------------------- runs with redeliveries

  /** In time order, with one entry per token at most. */
  ghost predicate Ordered(info: Info) {
    SortedByTime(info.redelivery) && TokensDistinct(info.redelivery)
  }

  ghost predicate AllOrdered(e: Engine) {
    forall n :: n in e.index ==> Ordered(e.index[n])
  }

  /** The token has no entry. */
  ghost predicate Absent(list: seq<Due>, token: Bytes) {
    forall d :: d in list ==> d.token != token
  }

  lemma RememberOrdered(info: Info, token: Bytes, now: nat)
    requires Ordered(info) && Absent(info.redelivery, token)
    ensures Ordered(Remember(info, token, now))
  {
    InsertSorted(info.redelivery, Due(now, token));
    InsertDistinct(info.redelivery, Due(now, token));
  }

  lemma ForgetOrdered(info: Info, token: Bytes)
    requires Ordered(info) && token in info.unacked
    ensures Ordered(Forget(info, token))
  {
    EraseSorted(info.redelivery, Due(info.unacked[token], token));
    EraseDistinct(info.redelivery, Due(info.unacked[token], token));
  }

  /** What a get chooses has no entry left: a ready token never had one, an overdue one gives
      its entry up. */
  lemma ChooseOrdered(e: Engine, name: Bytes)
    requires Inv(e) && Apart(e) && AllOrdered(e) && IsQueue(e, name)
    ensures var (e1, token) := Choose(e, e.index[name].offset, name);
      && AllOrdered(e1)
      && (token.Some? ==> Absent(e1.index[name].redelivery, token.value))
  {
    hide Token, NameOk, IndexOk, SlotNames, Offsets, Next, Items, ItemKey, Pick;
    if !Overdue(e, name) {
      ReadyTokenIsNew(e, name);
    }
  }

  lemma GetOrdered(e: Engine, name: Bytes, worker: Bytes, isAck: bool, fault: bool)
    requires Inv(e) && Apart(e) && AllOrdered(e)
    ensures AllOrdered(Get(e, name, worker, isAck, fault).0)
  {
    hide NameOk, Key, Choose, Inv, Ordered, Remember, Mapped, Apart, Absent;
    FindOk(e, name);
    if IsQueue(e, name) {
      ChooseOrdered(e, name);
      var (e1, token) := Choose(e, e.index[name].offset, name);
      if token.Some? {
        RememberOrdered(e1.index[name], token.value, e1.now);
      }
    }
  }

  lemma StepOrdered(s: System, op: Op)
    requires SystemOk(s) && Apart(s.engine) && AllOrdered(s.engine)
    ensures AllOrdered(Step(s, op).0.engine)
  {
    hide NameOk, Get, Inv, Ordered, FindOrCreate, Mapped, Real, RealItem, PurgeKeys, Rebuild, SlotNames, Token, Key, Full, Forget,
      Apart;
    var e := s.engine;
    match op
    case OpPut(name, _, _, _) => OpenOrdered(e, name);
    case OpGet(name, worker, isAck, fault, _) => GetOrdered(e, name, worker, isAck, fault);
    case OpAck(name, token) =>
      if name in e.index && token in e.index[name].unacked { ForgetOrdered(e.index[name], token); }
    case OpRestart => EmptyOrdered();
    case _ =>
  }

  lemma EmptyOrdered()
    ensures forall at: nat :: Ordered(Info(at, map[], []))
  {
  }

  lemma OpenOrdered(e: Engine, name: Bytes)
    requires AllOrdered(e)
    ensures AllOrdered(FindOrCreate(e, name).0)
  {
  }

  /** After any run in which no put takes a tag that is outstanding or about to be deleted,
      redeliveries included, every multimap is sorted with at most one entry per token. */
  lemma {:induction false} RunOrdered(s: System, ops: seq<Op>)
    requires SystemOk(s) && Separate(s) && AllOrdered(s.engine) && FreshRun(s, ops)
    ensures AllOrdered(Run(s, ops).0.engine)
    decreases |ops|
  {
    hide SystemOk, AllOrdered, Step, FreshPut, Apart, PromisesApart;
    if ops != [] {
      StepSeparates(s, ops[0]);
      StepKeepsOk(s, ops[0]);
      StepOrdered(s, ops[0]);
      RunOrdered(Step(s, ops[0]).0, ops[1..]);
    }
  }

  /** After such a run an acknowledgement leaves an entry of its token behind exactly when the
      entry of the token was made at another time than the map holds. */
  lemma StaleAfterRun(s: System, ops: seq<Op>, name: Bytes, token: Bytes)
    requires SystemOk(s) && Separate(s) && AllOrdered(s.engine) && FreshRun(s, ops)
    requires name in Run(s, ops).0.engine.index && token in Run(s, ops).0.engine.index[name].unacked
    ensures var info := Run(s, ops).0.engine.index[name];
      !Absent(Forget(info, token).redelivery, token) <==>
      exists d :: d in info.redelivery && d.token == token && d.time != info.unacked[token]
  {
    hide SystemOk, Separate, FreshRun, Run;
    RunOrdered(s, ops);
    StaleByTime(Run(s, ops).0.engine.index[name], token);
  }

  lemma StaleByTime(info: Info, token: Bytes)
    requires Ordered(info) && token in info.unacked
    ensures !Absent(Forget(info, token).redelivery, token) <==>
      exists d :: d in info.redelivery && d.token == token && d.time != info.unacked[token]
  {
    hide EraseDue;
    var gone := Due(info.unacked[token], token);
    if gone in info.redelivery {
      EraseMembers(info.redelivery, gone);
    } else {
      EraseAbsent(info.redelivery, gone);
    }
  }

  lemma {:induction false} EraseAbsent(list: seq<Due>, d: Due)
    requires d !in list
    ensures EraseDue(list, d) == list
  {
    if list != [] {
      EraseAbsent(list[1..], d);
      assert [list[0]] + list[1..] == list;
    }
  }
}
