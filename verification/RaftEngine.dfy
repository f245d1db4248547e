/** The commitment record as it is updated: the match table is shared by every copy of the
    record, the commit index is not. */
module RaftEngine {
  import opened RaftQuorum
  import opened RaftServers
  import opened RaftCommitModel

  ghost function MatchedIn(table: Table, ids: set<ServerId>, index: nat): set<ServerId> {
    set s | s in table && s in ids && table[s] >= index
  }

  lemma CollectOne(table: Table, done: set<ServerId>, id: ServerId, matched: seq<nat>, index: nat)
    requires id in table && id !in done && CountAtLeast(matched, index) == |MatchedIn(table, done, index)|
    ensures CountAtLeast(matched + [table[id]], index) == |MatchedIn(table, done + {id}, index)|
  {
    CountConcat(matched, [table[id]], index);
    assert CountAtLeast([table[id]], index) == if table[id] >= index then 1 else 0;
    assert MatchedIn(table, done + {id}, index) ==
      MatchedIn(table, done, index) + if table[id] >= index then {id} else {};
  }

  /** The values of a table in any order. */
  method CollectMatched(table: Table) returns (matched: seq<nat>)
    ensures |matched| == |table|
    ensures forall index: nat :: CountAtLeast(matched, index) == |MatchedBy(table, index)|
  {
    hide CountAtLeast, MatchedIn;
    matched := [];
    var rest := table.Keys;
    ghost var done := {};
    CollectNone(table);
    while rest != {}
      invariant done !! rest && done + rest == table.Keys
      invariant |matched| == |done|
      invariant forall index: nat :: CountAtLeast(matched, index) == |MatchedIn(table, done, index)|
      decreases rest
    {
      var id :| id in rest;
      forall index: nat ensures CountAtLeast(matched + [table[id]], index) == |MatchedIn(table, done + {id}, index)| {
        CollectOne(table, done, id, matched, index);
      }
      matched, rest, done := matched + [table[id]], rest - {id}, done + {id};
    }
    CollectAll(table);
  }

  lemma CollectNone(table: Table)
    ensures forall index: nat :: CountAtLeast([], index) == |MatchedIn(table, {}, index)|
  {
  }

  lemma CollectAll(table: Table)
    ensures |table.Keys| == |table|
    ensures forall index: nat :: MatchedIn(table, table.Keys, index) == MatchedBy(table, index)
  {
  }

  /** sort.Sort on a slice of indexes. */
  method SortIndexes(s: seq<nat>) returns (t: seq<nat>)
    ensures Ascending(t) && multiset(t) == multiset(s)
  {
    hide Ascending;
    t := [];
    assert Ascending(t) by { EmptyAscending(); }
    var i := 0;
    while i < |s|
      invariant i <= |s| && Ascending(t) && multiset(t) == multiset(s[..i])
    {
      assert s[..i + 1] == s[..i] + [s[i]];
      t := Insert(t, s[i]);
      i := i + 1;
    }
    assert s[..i] == s;
  }

  lemma EmptyAscending()
    ensures Ascending([])
  {
  }

  method Insert(t: seq<nat>, x: nat) returns (u: seq<nat>)
    requires Ascending(t)
    ensures Ascending(u) && multiset(u) == multiset(t) + multiset{x}
  {
    var p := 0;
    while p < |t| && t[p] <= x
      invariant p <= |t| && forall k :: 0 <= k < p ==> t[k] <= x
    {
      p := p + 1;
    }
    u := t[..p] + [x] + t[p..];
    InsertAscending(t, p, x);
    InsertContents(t, p, x);
  }

  lemma InsertContents(t: seq<nat>, p: nat, x: nat)
    requires p <= |t|
    ensures multiset(t[..p] + [x] + t[p..]) == multiset(t) + multiset{x}
  {
    assert t == t[..p] + t[p..];
  }

  lemma InsertAscending(t: seq<nat>, p: nat, x: nat)
    requires Ascending(t) && p <= |t|
    requires (forall k :: 0 <= k < p ==> t[k] <= x) && (p < |t| ==> x < t[p])
    ensures Ascending(t[..p] + [x] + t[p..])
  {
  }

  class MatchTable {
    var entries: Table

    constructor (entries: Table)
      ensures this.entries == entries
    {
      this.entries := entries;
    }
  }

  /** commitCh; `notices` counts the notifications offered to it. */
  class CommitChannel {
    var notices: nat
  }

  /** The voters of a configuration with the indexes they had in an older table. */
  method CarryOver(older: Table, servers: seq<Server>) returns (entries: Table)
    ensures entries == TableFor(older, servers)
  {
    entries := map[];
    var i := 0;
    while i < |servers|
      invariant i <= |servers| && entries == TableFor(older, servers[..i])
    {
      assert servers[..i + 1] == servers[..i] + [servers[i]];
      if servers[i].suffrage == Voter {
        var id := servers[i].id;
        entries := entries[id := if id in older then older[id] else 0];
      }
      i := i + 1;
    }
    assert servers[..i] == servers;
  }

  class Commitment {
    var matchIndexes: MatchTable
    var commitIndex: nat
    var startIndex: nat
    const commitCh: CommitChannel

    /** newCommitment. */
    constructor (commitCh: CommitChannel, servers: seq<Server>, startIndex: nat)
      ensures State() == RaftCommitModel.State(TableFor(map[], servers), 0, startIndex)
      ensures fresh(matchIndexes) && this.commitCh == commitCh
    {
      var entries := CarryOver(map[], servers);
      matchIndexes := new MatchTable(entries);
      commitIndex := 0;
      this.startIndex := startIndex;
      this.commitCh := commitCh;
    }

    /** Passing the record by value: same table, same channel. */
    constructor Copy(other: Commitment)
      ensures matchIndexes == other.matchIndexes && commitCh == other.commitCh
      ensures commitIndex == other.commitIndex && startIndex == other.startIndex
    {
      matchIndexes, commitIndex, startIndex := other.matchIndexes, other.commitIndex, other.startIndex;
      commitCh := other.commitCh;
    }

    function State(): RaftCommitModel.State
      reads this, matchIndexes
    {
      RaftCommitModel.State(matchIndexes.entries, commitIndex, startIndex)
    }

    method Recalculate()
      modifies this`commitIndex, commitCh
      ensures Recalculated(old(State()), commitIndex)
      ensures commitCh.notices == old(commitCh.notices) + if commitIndex != old(commitIndex) then 1 else 0
    {
      if |matchIndexes.entries| < 1 {
        return;
      }
      var matched := CollectMatched(matchIndexes.entries);
      var ordered := SortIndexes(matched);
      assert |multiset(ordered)| == |multiset(matched)|;
      var quorum := ordered[(|ordered| - 1) / 2];
      QuorumOf(matchIndexes.entries, matched, ordered);
      assert quorum > commitIndex && quorum >= startIndex <==> Advances(commitIndex, startIndex, quorum);
      if quorum > commitIndex && quorum >= startIndex {
        commitIndex := quorum;
        commitCh.notices := commitCh.notices + 1;
      }
      assert commitIndex == NextCommit(old(State()), quorum);
    }

    method SetConfiguration(servers: seq<Server>)
      modifies this, commitCh
      ensures Step(old(State()), OpSetConfiguration(servers), State())
      ensures fresh(matchIndexes)
      ensures commitCh.notices == old(commitCh.notices) + if commitIndex != old(commitIndex) then 1 else 0
    {
      hide Recalculated;
      var entries := CarryOver(matchIndexes.entries, servers);
      matchIndexes := new MatchTable(entries);
      Recalculate();
    }

    /** match has a value receiver: everything happens on a copy. */
    method Match(id: ServerId, index: nat)
      modifies matchIndexes, commitCh
      ensures Step(old(State()), OpMatch(id, index), State())
      ensures commitIndex == old(commitIndex)
      ensures commitCh.notices ==
        old(commitCh.notices) +
        if id in old(matchIndexes.entries) && index > old(matchIndexes.entries)[id] && !UpToDate(State()) then 1 else 0
    {
      var copy := new Commitment.Copy(this);
      if id in copy.matchIndexes.entries && index > copy.matchIndexes.entries[id] {
        copy.matchIndexes.entries := copy.matchIndexes.entries[id := index];
        ghost var before := copy.State();
        copy.Recalculate();
        RecalculatedMoves(before, copy.commitIndex);
        assert before == State();
      }
    }
  }

  lemma QuorumOf(table: Table, matched: seq<nat>, ordered: seq<nat>)
    requires |matched| == |table| > 0
    requires forall index: nat :: CountAtLeast(matched, index) == |MatchedBy(table, index)|
    requires Ascending(ordered) && multiset(ordered) == multiset(matched) && |ordered| == |matched|
    ensures IsQuorumIndex(table, ordered[(|ordered| - 1) / 2])
  {
    hide Ascending;
    MiddleIsQuorum(ordered);
    forall index: nat ensures CountAtLeast(ordered, index) == |MatchedBy(table, index)| {
      CountPermuted(ordered, matched, index);
    }
  }

  /** recalculate moves the commit index exactly when the record was not up to date. */
  lemma RecalculatedMoves(s: State, commitIndex: nat)
    requires Recalculated(s, commitIndex)
    ensures commitIndex != s.commitIndex <==> !UpToDate(s)
  {
  }
}
