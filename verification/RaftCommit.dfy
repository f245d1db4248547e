/** Quorums over a table of match indexes, as values. */
module RaftQuorum {
  /** The members of a table that store the log up through an index. */
  function MatchedBy<K>(table: map<K, nat>, index: nat): set<K> {
    set s | s in table && table[s] >= index
  }

  /** More than half of the members store the log up through an index. */
  predicate Majority<K>(table: map<K, nat>, index: nat) {
    2 * |MatchedBy(table, index)| > |table|
  }

  /** The largest index stored by a majority. */
  ghost predicate IsQuorumIndex<K>(table: map<K, nat>, index: nat) {
    Majority(table, index) && forall j: nat :: j > index ==> !Majority(table, j)
  }

  function CountAtLeast(s: seq<nat>, index: nat): nat {
    if s == [] then 0 else (if s[0] >= index then 1 else 0) + CountAtLeast(s[1..], index)
  }

  predicate Ascending(s: seq<nat>) {
    forall i, j :: 0 <= i < j < |s| ==> s[i] <= s[j]
  }

  lemma {:induction false} CountConcat(a: seq<nat>, b: seq<nat>, index: nat)
    ensures CountAtLeast(a + b, index) == CountAtLeast(a, index) + CountAtLeast(b, index)
  {
    if a == [] {
      assert a + b == b;
    } else {
      assert (a + b)[1..] == a[1..] + b;
      CountConcat(a[1..], b, index);
    }
  }

  lemma {:induction false} CountBounds(s: seq<nat>, index: nat)
    ensures CountAtLeast(s, index) <= |s|
    ensures (forall i :: 0 <= i < |s| ==> s[i] >= index) ==> CountAtLeast(s, index) == |s|
    ensures (forall i :: 0 <= i < |s| ==> s[i] < index) ==> CountAtLeast(s, index) == 0
  {
    if s != [] {
      CountBounds(s[1..], index);
    }
  }

  lemma WithoutOne(t: seq<nat>, k: nat)
    requires k < |t|
    ensures multiset(t[..k] + t[k + 1..]) == multiset(t) - multiset{t[k]}
  {
    assert t == t[..k] + [t[k]] + t[k + 1..];
  }

  lemma CountWithoutOne(t: seq<nat>, k: nat, index: nat)
    requires k < |t|
    ensures CountAtLeast(t, index) == CountAtLeast(t[..k] + t[k + 1..], index) + if t[k] >= index then 1 else 0
  {
    var a, b := t[..k], t[k..];
    assert t == a + b && b[0] == t[k] && b[1..] == t[k + 1..];
    CountConcat(a, b, index);
    CountConcat(a, b[1..], index);
  }

  /** Reordering does not change a count. */
  lemma {:induction false} CountPermuted(s: seq<nat>, t: seq<nat>, index: nat)
    requires multiset(s) == multiset(t)
    ensures CountAtLeast(s, index) == CountAtLeast(t, index)
    decreases |s|
  {
    if s == [] {
      assert |multiset(t)| == 0;
    } else {
      assert s[0] in multiset(t);
      var k :| 0 <= k < |t| && t[k] == s[0];
      WithoutOne(t, k);
      WithoutOne(s, 0);
      assert s[..0] + s[1..] == s[1..];
      CountPermuted(s[1..], t[..k] + t[k + 1..], index);
      CountWithoutOne(t, k, index);
    }
  }

  lemma MiddleIsReached(s: seq<nat>, k: nat)
    requires k < |s| && Ascending(s)
    ensures CountAtLeast(s, s[k]) >= |s| - k
  {
    assert s == s[..k] + s[k..];
    CountConcat(s[..k], s[k..], s[k]);
    CountBounds(s[k..], s[k]);
  }

  lemma AboveIsFewer(s: seq<nat>, k: nat, j: nat)
    requires k < |s| && Ascending(s) && j > s[k]
    ensures CountAtLeast(s, j) <= |s| - k - 1
  {
    assert s == s[..k + 1] + s[k + 1..];
    CountConcat(s[..k + 1], s[k + 1..], j);
    CountBounds(s[..k + 1], j);
    CountBounds(s[k + 1..], j);
  }

  /** The lower middle of an ascending sequence is reached by more than half of it, and
      nothing larger is. */
  lemma MiddleIsQuorum(s: seq<nat>)
    requires s != [] && Ascending(s)
    ensures var q := s[(|s| - 1) / 2];
      2 * CountAtLeast(s, q) > |s| && forall j: nat :: j > q ==> 2 * CountAtLeast(s, j) <= |s|
  {
    hide CountAtLeast, Ascending;
    var k := (|s| - 1) / 2;
    MiddleIsReached(s, k);
    forall j: nat | j > s[k] ensures 2 * CountAtLeast(s, j) <= |s| {
      AboveIsFewer(s, k, j);
    }
  }
}

/** The leader's commitment record, src/hustmeta/raft/commitment.go, as a value. */
module RaftCommitModel {
  import opened RaftQuorum
  import opened RaftServers

  type Table = map<ServerId, nat>

  datatype State = State(table: Table, commitIndex: nat, startIndex: nat)

  /** The commit index may move to the given quorum index. */
  predicate Advances(commitIndex: nat, startIndex: nat, quorum: nat) {
    quorum > commitIndex && quorum >= startIndex
  }

  /** Nothing more can be committed. */
  ghost predicate UpToDate(s: State) {
    forall q: nat :: IsQuorumIndex(s.table, q) ==> !Advances(s.commitIndex, s.startIndex, q)
  }

  function NextCommit(s: State, quorum: nat): nat {
    if Advances(s.commitIndex, s.startIndex, quorum) then quorum else s.commitIndex
  }

  /** What recalculate does to the commit index. */
  ghost predicate Recalculated(s: State, commitIndex: nat) {
    if s.table == map[] then commitIndex == s.commitIndex
    else exists q: nat :: IsQuorumIndex(s.table, q) && commitIndex == NextCommit(s, q)
  }

  /** The table for a configuration: the voters, with the indexes they had. */
  function TableFor(old_: Table, servers: seq<Server>): Table {
    map id | id in Voters(servers) :: if id in old_ then old_[id] else 0
  }

  predicate Accepts(s: State, id: ServerId, index: nat) {
    id in s.table && index > s.table[id]
  }

  datatype Op = OpMatch(id: ServerId, index: nat) | OpSetConfiguration(servers: seq<Server>)

  /** One call. match only changes the shared table: it works on a copy of the record, so the
      commit index it computes is dropped. */
  ghost predicate Step(s: State, op: Op, s': State) {
    match op
    case OpMatch(id, index) => s' == if Accepts(s, id, index) then s.(table := s.table[id := index]) else s
    case OpSetConfiguration(servers) =>
      var s1 := s.(table := TableFor(s.table, servers));
      Recalculated(s1, s'.commitIndex) && s' == s1.(commitIndex := s'.commitIndex)
  }

  ghost predicate Run(states: seq<State>, ops: seq<Op>) {
    |states| == |ops| + 1 && forall i :: 0 <= i < |ops| ==> Step(states[i], ops[i], states[i + 1])
  }

  /** Every call keeps the commit index or moves it forward to the largest index a majority of
      the current voters has; only setConfiguration moves it, and afterwards it is up to date. */
  lemma StepFacts(s: State, op: Op, s': State)
    requires Step(s, op, s')
    ensures s'.startIndex == s.startIndex && s'.commitIndex >= s.commitIndex
    ensures s'.commitIndex != s.commitIndex ==>
      op.OpSetConfiguration? && IsQuorumIndex(s'.table, s'.commitIndex) && s'.commitIndex >= s.startIndex
    ensures op.OpSetConfiguration? ==> s'.table.Keys == Voters(op.servers) && UpToDate(s')
    ensures op.OpSetConfiguration? ==>
      forall id :: id in s'.table ==> s'.table[id] == if id in s.table then s.table[id] else 0
    ensures op.OpMatch? ==> s'.table.Keys == s.table.Keys && forall id :: id in s.table ==> s'.table[id] >= s.table[id]
  {
  }

  /** setConfiguration with the voters it had keeps every index, and commits whatever a majority
      stores from the leader's term on. */
  lemma SameVotersCommit(s: State, servers: seq<Server>, s': State, index: nat)
    requires Step(s, OpSetConfiguration(servers), s') && Voters(servers) == s.table.Keys
    ensures s'.table == s.table
    ensures Majority(s.table, index) && index >= s.startIndex ==> s'.commitIndex >= index
  {
    StepFacts(s, OpSetConfiguration(servers), s');
    assert s'.table == s.table;
    if Majority(s.table, index) && index >= s.startIndex && s'.commitIndex < index {
      hide Majority, Step, UpToDate, MatchedBy;
      UpToDateExact(s');
      MajorityAntitone(s'.table, NextIndex(s'), index);
      assert false;
    }
  }

  /** While a server stays a voter, its entry is the largest index reported for it: no report
      exceeds it, and it is the entry it started with or one of the reports. */
  lemma {:induction false} EntryIsLargestReport(states: seq<State>, ops: seq<Op>, id: ServerId, i: nat, j: nat)
    requires Run(states, ops) && i <= j < |states|
    requires forall k :: i <= k <= j ==> id in states[k].table
    ensures states[j].table[id] >= states[i].table[id]
    ensures forall k :: i <= k < j && ops[k].OpMatch? && ops[k].id == id ==> states[j].table[id] >= ops[k].index
    ensures states[j].table[id] == states[i].table[id] || exists k :: i <= k < j && ops[k] == OpMatch(id, states[j].table[id])
    decreases j - i
  {
    hide Step;
    if i < j {
      EntryIsLargestReport(states, ops, id, i, j - 1);
      assert Step(states[j - 1], ops[j - 1], states[j]);
      EntryMoves(states[j - 1], ops[j - 1], states[j], id);
    }
  }

  lemma EntryMoves(s: State, op: Op, s': State, id: ServerId)
    requires Step(s, op, s') && id in s.table && id in s'.table
    ensures s'.table[id] == if op.OpMatch? && op.id == id && op.index > s.table[id] then op.index else s.table[id]
  {
  }

  /** Over every run of match and setConfiguration the commit index never decreases, and it is
      0 or at least the first index of the leader's term. */
  lemma {:induction false} CommitMonotone(states: seq<State>, ops: seq<Op>, i: nat, j: nat)
    requires Run(states, ops) && i <= j < |states|
    ensures states[i].commitIndex <= states[j].commitIndex && states[j].startIndex == states[i].startIndex
    ensures states[i].commitIndex == 0 || states[i].commitIndex >= states[i].startIndex ==>
      states[j].commitIndex == 0 || states[j].commitIndex >= states[j].startIndex
    decreases j - i
  {
    hide Step;
    if i < j {
      CommitMonotone(states, ops, i, j - 1);
      assert Step(states[j - 1], ops[j - 1], states[j]);
      StepFacts(states[j - 1], ops[j - 1], states[j]);
    }
  }

  lemma MatchedGrows(a: Table, b: Table, index: nat)
    requires a.Keys == b.Keys && forall id :: id in a ==> b[id] >= a[id]
    requires Majority(a, index)
    ensures Majority(b, index)
  {
    assert MatchedBy(a, index) <= MatchedBy(b, index);
    SubsetSize(MatchedBy(a, index), MatchedBy(b, index));
    assert |a.Keys| == |a| && |b.Keys| == |b|;
  }

  lemma {:induction false} SubsetSize<T>(a: set<T>, b: set<T>)
    requires a <= b
    ensures |a| <= |b|
  {
    assert b == a + (b - a);
  }

  /** In a run, an index that was committed by the configuration set at step i stays stored by
      a majority of its voters until the next configuration. */
  lemma {:induction false} CommittedStaysMatched(states: seq<State>, ops: seq<Op>, i: nat, j: nat, index: nat)
    requires Run(states, ops) && i <= j < |states|
    requires forall k :: i <= k < j ==> ops[k].OpMatch?
    requires Majority(states[i].table, index)
    ensures Majority(states[j].table, index) && states[j].commitIndex == states[i].commitIndex
    decreases j - i
  {
    hide Step, Majority;
    if i < j {
      CommittedStaysMatched(states, ops, i, j - 1, index);
      assert Step(states[j - 1], ops[j - 1], states[j]);
      StepFacts(states[j - 1], ops[j - 1], states[j]);
      MatchedGrows(states[j - 1].table, states[j].table, index);
    }
  }

  // ---------------------------------------------------------------- the lost commit

  lemma MajorityAntitone(table: Table, i: nat, j: nat)
    requires i <= j && Majority(table, j)
    ensures Majority(table, i)
  {
    assert MatchedBy(table, j) <= MatchedBy(table, i);
    SubsetSize(MatchedBy(table, j), MatchedBy(table, i));
  }

  lemma {:induction false} Bounded(table: Table) returns (bound: nat)
    ensures forall id :: id in table ==> table[id] < bound
    decreases |table|
  {
    if table == map[] {
      bound := 0;
    } else {
      var id :| id in table;
      assert |table - {id}| < |table|;
      bound := Bounded(table - {id});
      forall other | other in table && other != id ensures table[other] < bound {
        assert other in table - {id} && (table - {id})[other] == table[other];
      }
      bound := if bound > table[id] then bound else table[id] + 1;
    }
  }

  lemma {:induction false} QuorumBetween(table: Table, i: nat, bound: nat)
    requires Majority(table, i) && !Majority(table, bound) && i < bound
    ensures exists q: nat :: q >= i && IsQuorumIndex(table, q)
    decreases bound - i
  {
    hide Majority;
    if Majority(table, i + 1) {
      QuorumBetween(table, i + 1, bound);
    } else {
      forall j: nat | j > i ensures !Majority(table, j) {
        if Majority(table, j) { MajorityAntitone(table, i + 1, j); }
      }
      assert IsQuorumIndex(table, i);
    }
  }

  /** Above every index a majority stores lies the quorum index. */
  lemma QuorumAbove(table: Table, i: nat)
    requires Majority(table, i)
    ensures exists q: nat :: q >= i && IsQuorumIndex(table, q)
  {
    var bound := Bounded(table);
    var top := if bound > i then bound else i + 1;
    assert MatchedBy(table, top) == {};
    QuorumBetween(table, i, top);
  }

  /** The next index the leader could commit. */
  function NextIndex(s: State): nat {
    if s.commitIndex + 1 >= s.startIndex then s.commitIndex + 1 else s.startIndex
  }

  /** Nothing can be committed exactly when no majority stores the next index. */
  lemma UpToDateExact(s: State)
    ensures UpToDate(s) <==> !Majority(s.table, NextIndex(s))
  {
    var n := NextIndex(s);
    if Majority(s.table, n) {
      QuorumAbove(s.table, n);
      var q: nat :| q >= n && IsQuorumIndex(s.table, q);
      assert Advances(s.commitIndex, s.startIndex, q);
    } else {
      forall q: nat | IsQuorumIndex(s.table, q) ensures !Advances(s.commitIndex, s.startIndex, q) {
        if Advances(s.commitIndex, s.startIndex, q) { MajorityAntitone(s.table, n, q); }
      }
    }
  }

  /** match loses a commit exactly when its entry is the one that completes a majority at the
      next index: the server did not store that index before, stores it now, and together with
      those that did it is more than half of the voters. */
  lemma MatchExact(s: State, id: ServerId, index: nat, s': State)
    requires Step(s, OpMatch(id, index), s')
    ensures var n := NextIndex(s);
      UpToDate(s') <==>
      UpToDate(s) && !(id in s.table && s.table[id] < n <= index && 2 * (|MatchedBy(s.table, n)| + 1) > |s.table|)
  {
    hide UpToDate;
    UpToDateExact(s);
    UpToDateExact(s');
    var n := NextIndex(s);
    if Accepts(s, id, index) {
      assert s'.table.Keys == s.table.Keys;
      assert |s'.table.Keys| == |s'.table| && |s.table.Keys| == |s.table|;
      assert MatchedBy(s'.table, n) == MatchedBy(s.table, n) + if n <= index then {id} else {};
      SubsetSize(MatchedBy(s.table, n), MatchedBy(s'.table, n));
    }
  }

  /** One voter that has written entry 1 of a term starting at 1: entry 1 is stored by a
      majority and the commit index stays 0. */
  lemma LostCommitExample(s': State)
    requires Step(State(map["a" := 0], 0, 1), OpMatch("a", 1), s')
    ensures UpToDate(State(map["a" := 0], 0, 1)) && IsQuorumIndex(s'.table, 1) && s'.commitIndex == 0 && !UpToDate(s')
  {
  }
}
