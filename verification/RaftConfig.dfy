/** Membership changes of src/hustmeta/raft/configuration.go, on server lists. */
module RaftConfigModel {
  import opened Bytes
  import opened RaftServers

  datatype Command = AddStaging | AddNonvoter | DemoteVoter | RemoveServer | Promote

  datatype Request = Request(command: Command, id: ServerId, address: ServerAddress, prevIndex: nat)

  predicate DistinctIds(servers: seq<Server>) {
    forall i, j :: 0 <= i < j < |servers| ==> servers[i].id != servers[j].id
  }

  predicate DistinctAddresses(servers: seq<Server>) {
    forall i, j :: 0 <= i < j < |servers| ==> servers[i].address != servers[j].address
  }

  predicate Named(servers: seq<Server>) {
    forall i :: 0 <= i < |servers| ==> servers[i].id != "" && servers[i].address != ""
  }

  /** What Check accepts. */
  predicate Checked(servers: seq<Server>) {
    Named(servers) && DistinctIds(servers) && DistinctAddresses(servers) && Voters(servers) != {}
  }

  /** The first server with an id, or -1. */
  function IndexOf(servers: seq<Server>, id: ServerId): (r: int)
    ensures -1 <= r < |servers|
    ensures r >= 0 ==> servers[r].id == id && forall i :: 0 <= i < r ==> servers[i].id != id
    ensures r < 0 ==> forall i :: 0 <= i < |servers| ==> servers[i].id != id
  {
    if servers == [] then -1
    else if servers[0].id == id then 0
    else
      var r := IndexOf(servers[1..], id);
      if r < 0 then -1 else r + 1
  }

  /** addServer: a new server is appended; a voter only gets the address; any other server is
      replaced. */
  function AddServer(servers: seq<Server>, k: int, suffrage: Suffrage, r: Request): seq<Server>
    requires -1 <= k < |servers|
  {
    if k < 0 then servers + [Server(suffrage, r.id, r.address)]
    else if servers[k].suffrage == Voter then servers[k := servers[k].(address := r.address)]
    else servers[k := Server(suffrage, r.id, r.address)]
  }

  /** The receiver's list after Next; None is a run-time panic on an absent server. */
  function Edited(servers: seq<Server>, r: Request): Option<seq<Server>> {
    var k := IndexOf(servers, r.id);
    match r.command
    case AddStaging => Some(AddServer(servers, k, Voter, r))
    case AddNonvoter => Some(AddServer(servers, k, Nonvoter, r))
    case DemoteVoter => if k < 0 then None else Some(servers[k := servers[k].(suffrage := Nonvoter)])
    case RemoveServer => if k < 0 then None else Some(servers[..k] + servers[k + 1..])
    case Promote =>
      if k < 0 then None
      else if servers[k].suffrage == Staging then Some(servers[k := servers[k].(suffrage := Voter)])
      else Some(servers)
  }

  // ---------------------------------------------------------------- one change

  /** Every change is the replacement of one server by one with the same id, an appended server
      with a new id, or the removal of one. */
  datatype Shape = Replaced(k: nat, server: Server) | Appended(server: Server) | Removed(k: nat)

  /** The shape of a change: what it says about the list after it. */
  predicate HasShape(servers: seq<Server>, after: seq<Server>, s: Shape) {
    match s
    case Replaced(k, x) => k < |servers| && x.id == servers[k].id && after == servers[k := x]
    case Appended(x) => IndexOf(servers, x.id) < 0 && after == servers + [x]
    case Removed(k) => k < |servers| && after == servers[..k] + servers[k + 1..]
  }

  lemma ShapeOf(servers: seq<Server>, r: Request) returns (s: Shape)
    requires Edited(servers, r).Some?
    ensures HasShape(servers, Edited(servers, r).value, s)
  {
    hide IndexOf;
    var k := IndexOf(servers, r.id);
    var after := Edited(servers, r).value;
    if k < 0 {
      s := Appended(Server(if r.command == AddStaging then Voter else Nonvoter, r.id, r.address));
    } else if r.command == RemoveServer {
      s := Removed(k);
    } else {
      assert servers[k := servers[k]] == servers;
      s := Replaced(k, after[k]);
    }
  }

  /** Two sets that differ by at most one element. */
  predicate Near<T>(a: set<T>, b: set<T>) {
    |a - b| + |b - a| <= 1
  }

  lemma NearAround<T>(a: set<T>, b: set<T>, x: T)
    requires a + {x} == b + {x}
    ensures Near(a, b)
  {
    forall y | y in a - b ensures y == x { assert y in b + {x}; }
    forall y | y in b - a ensures y == x { assert y in a + {x}; }
    if x in a - b {
      assert a - b == {x} && b - a == {};
    } else {
      assert a - b == {} && b - a <= {x};
      assert b - a == {} || b - a == {x};
    }
  }

  /** The servers other than those with one id. */
  function Others(servers: seq<Server>, id: ServerId): set<Server> {
    set s | s in servers && s.id != id
  }

  lemma OthersDecide(a: seq<Server>, b: seq<Server>, id: ServerId)
    requires Others(a, id) == Others(b, id)
    ensures Near(Voters(a), Voters(b)) && Near(Ids(a), Ids(b))
  {
    forall s: Server | s.id != id ensures s in a <==> s in b {
      assert s in a <==> s in Others(a, id);
      assert s in b <==> s in Others(b, id);
    }
    assert Voters(a) + {id} == Voters(b) + {id};
    assert Ids(a) + {id} == Ids(b) + {id};
    NearAround(Voters(a), Voters(b), id);
    NearAround(Ids(a), Ids(b), id);
  }

  lemma ReplacedOthers(servers: seq<Server>, k: nat, x: Server)
    requires k < |servers| && x.id == servers[k].id
    ensures Others(servers[k := x], x.id) == Others(servers, x.id)
  {
    var t := servers[k := x];
    forall s: Server | s.id != x.id ensures s in t <==> s in servers {
      if s in servers {
        var i :| 0 <= i < |servers| && servers[i] == s;
        assert t[i] == s;
      }
      if s in t {
        var i :| 0 <= i < |t| && t[i] == s;
        assert servers[i] == s;
      }
    }
  }

  lemma RemovedOthers(servers: seq<Server>, k: nat)
    requires k < |servers|
    ensures Others(servers[..k] + servers[k + 1..], servers[k].id) == Others(servers, servers[k].id)
  {
  }

  /** One change alters the set of servers and the set of voters by at most one server, and
      keeps the ids distinct. */
  lemma OneChange(servers: seq<Server>, r: Request)
    requires DistinctIds(servers) && Edited(servers, r).Some?
    ensures var after := Edited(servers, r).value;
      Near(Ids(servers), Ids(after)) && Near(Voters(servers), Voters(after)) && DistinctIds(after)
  {
    hide Near, Voters, Ids, Others, Edited;
    var after := Edited(servers, r).value;
    var shape := ShapeOf(servers, r);
    match shape
    case Replaced(k, x) =>
      ReplacedOthers(servers, k, x);
      OthersDecide(servers, after, x.id);
    case Appended(x) =>
      AppendedOthers(servers, x);
      OthersDecide(servers, after, x.id);
    case Removed(k) =>
      RemovedOthers(servers, k);
      OthersDecide(servers, after, servers[k].id);
  }

  lemma AppendedOthers(servers: seq<Server>, x: Server)
    ensures Others(servers + [x], x.id) == Others(servers, x.id)
  {
  }

  // ---------------------------------------------------------------- majorities

  predicate MajorityOf<T>(part: set<T>, whole: set<T>) {
    part <= whole && 2 * |part| > |whole|
  }

  lemma PartSize<T>(a: set<T>, b: set<T>)
    requires a <= b
    ensures |b| == |a| + |b - a|
  {
  }

  lemma UnionSize<T>(a: set<T>, b: set<T>)
    ensures |a + b| == |a| + |b| - |a * b| && |a + b| == |a| + |b - a|
  {
  }

  /** Majorities of two sets that differ by at most one element meet. */
  lemma NearMajoritiesMeet<T>(v: set<T>, w: set<T>, a: set<T>, b: set<T>)
    requires Near(v, w) && MajorityOf(a, v) && MajorityOf(b, w)
    ensures a * b != {}
  {
    UnionSize(a, b);
    UnionSize(v, w);
    UnionSize(w, v);
    assert v + w == w + v;
    PartSize(a + b, v + w);
    assert |a * b| > 0;
  }

  /** Every majority of the servers, and of the voters, before a change meets every one after
      it. */
  lemma MajoritiesMeet(servers: seq<Server>, r: Request, a: set<ServerId>, b: set<ServerId>)
    requires DistinctIds(servers) && Edited(servers, r).Some?
    ensures MajorityOf(a, Ids(servers)) && MajorityOf(b, Ids(Edited(servers, r).value)) ==> a * b != {}
    ensures MajorityOf(a, Voters(servers)) && MajorityOf(b, Voters(Edited(servers, r).value)) ==> a * b != {}
  {
    hide Near, Voters, Ids, Edited, MajorityOf;
    OneChange(servers, r);
    var after := Edited(servers, r).value;
    if MajorityOf(a, Ids(servers)) && MajorityOf(b, Ids(after)) {
      NearMajoritiesMeet(Ids(servers), Ids(after), a, b);
    }
    if MajorityOf(a, Voters(servers)) && MajorityOf(b, Voters(after)) {
      NearMajoritiesMeet(Voters(servers), Voters(after), a, b);
    }
  }

  // ---------------------------------------------------------------- when a change passes Check

  predicate AddressFree(servers: seq<Server>, address: ServerAddress, except: int) {
    address != "" && forall i :: 0 <= i < |servers| && i != except ==> servers[i].address != address
  }

  predicate OtherVoter(servers: seq<Server>, except: int) {
    exists i :: 0 <= i < |servers| && i != except && servers[i].suffrage == Voter
  }

  /** A request that leaves a configuration Check accepts. */
  predicate Safe(servers: seq<Server>, r: Request) {
    var k := IndexOf(servers, r.id);
    match r.command
    case AddStaging => r.id != "" && AddressFree(servers, r.address, k)
    case AddNonvoter => r.id != "" && AddressFree(servers, r.address, k)
    case DemoteVoter => OtherVoter(servers, k)
    case RemoveServer => OtherVoter(servers, k)
    case Promote => true
  }

  lemma VotersAre(servers: seq<Server>)
    ensures Voters(servers) != {} <==> exists i :: 0 <= i < |servers| && servers[i].suffrage == Voter
  {
    if i :| 0 <= i < |servers| && servers[i].suffrage == Voter {
      assert servers[i].id in Voters(servers);
    }
  }

  lemma ReplacedVoters(servers: seq<Server>, k: nat, x: Server)
    requires k < |servers|
    ensures Voters(servers[k := x]) != {} <==> x.suffrage == Voter || OtherVoter(servers, k)
  {
    hide Voters;
    var t := servers[k := x];
    VotersAre(t);
    assert t[k] == x;
    if i :| 0 <= i < |t| && t[i].suffrage == Voter {
      assert i == k || (servers[i] == t[i] && OtherVoter(servers, k));
    }
    if i :| 0 <= i < |servers| && i != k && servers[i].suffrage == Voter {
      assert t[i].suffrage == Voter;
    }
  }

  lemma ReplacedAddresses(servers: seq<Server>, k: nat, x: Server)
    requires k < |servers| && x.id == servers[k].id
    requires Named(servers) && DistinctIds(servers) && DistinctAddresses(servers)
    ensures DistinctIds(servers[k := x])
    ensures Named(servers[k := x]) && DistinctAddresses(servers[k := x]) <==> AddressFree(servers, x.address, k)
  {
    var t := servers[k := x];
    assert t[k] == x;
    assert forall i :: 0 <= i < |t| && i != k ==> t[i] == servers[i];
  }

  lemma ReplacedChecked(servers: seq<Server>, k: nat, x: Server)
    requires Checked(servers) && k < |servers| && x.id == servers[k].id
    ensures Checked(servers[k := x]) <==>
      AddressFree(servers, x.address, k) && (x.suffrage == Voter || OtherVoter(servers, k))
  {
    hide Voters, Named, DistinctIds, DistinctAddresses, AddressFree, OtherVoter;
    ReplacedVoters(servers, k, x);
    ReplacedAddresses(servers, k, x);
  }

  lemma AppendedChecked(servers: seq<Server>, x: Server)
    requires Checked(servers) && IndexOf(servers, x.id) < 0
    ensures Checked(servers + [x]) <==> x.id != "" && AddressFree(servers, x.address, -1)
  {
    hide Voters;
    var t := servers + [x];
    VotersAre(servers);
    VotersAre(t);
    var i :| 0 <= i < |servers| && servers[i].suffrage == Voter;
    assert t[i].suffrage == Voter;
    assert t[|servers|] == x;
    assert forall i :: 0 <= i < |servers| ==> t[i] == servers[i];
  }

  lemma RemovedVoters(servers: seq<Server>, k: nat)
    requires k < |servers|
    ensures Voters(servers[..k] + servers[k + 1..]) != {} <==> OtherVoter(servers, k)
  {
    hide Voters;
    var t := servers[..k] + servers[k + 1..];
    VotersAre(t);
    if i :| 0 <= i < |t| && t[i].suffrage == Voter {
      var j := if i < k then i else i + 1;
      assert servers[j] == t[i] && j != k;
    }
    if j :| 0 <= j < |servers| && j != k && servers[j].suffrage == Voter {
      var i := if j < k then j else j - 1;
      assert t[i] == servers[j];
    }
  }

  lemma RemovedChecked(servers: seq<Server>, k: nat)
    requires Checked(servers) && k < |servers|
    ensures Checked(servers[..k] + servers[k + 1..]) <==> OtherVoter(servers, k)
  {
    hide Voters, OtherVoter;
    var t := servers[..k] + servers[k + 1..];
    RemovedVoters(servers, k);
    assert forall i :: 0 <= i < |t| ==> t[i] == servers[if i < k then i else i + 1];
  }

  /** From a configuration that passes Check, a change leads to one that passes Check exactly
      when the request is safe. */
  lemma ChangeExact(servers: seq<Server>, r: Request)
    requires Checked(servers) && Edited(servers, r).Some?
    ensures Checked(Edited(servers, r).value) <==> Safe(servers, r)
  {
    hide Checked, AddressFree, OtherVoter;
    var k := IndexOf(servers, r.id);
    NonEmpty(servers);
    if k < 0 {
      AppendedChecked(servers, Edited(servers, r).value[|servers|]);
    } else if r.command == RemoveServer {
      RemovedChecked(servers, k);
    } else {
      assert servers[k := servers[k]] == servers;
      ReplacedChecked(servers, k, Edited(servers, r).value[k]);
      OwnEntry(servers, k);
    }
  }

  lemma NonEmpty(servers: seq<Server>)
    requires Checked(servers)
    ensures servers != []
  {
  }

  /** Facts about a server of a configuration that passes Check. */
  lemma OwnEntry(servers: seq<Server>, k: nat)
    requires Checked(servers) && k < |servers|
    ensures servers[k].id != "" && AddressFree(servers, servers[k].address, k)
    ensures servers[k].suffrage != Voter ==> OtherVoter(servers, k)
  {
  }

  // ---------------------------------------------------------------- what the commands do

  predicate HasSuffrage(servers: seq<Server>, id: ServerId, suffrage: Suffrage) {
    var k := IndexOf(servers, id);
    k >= 0 && servers[k].suffrage == suffrage
  }

  lemma {:induction false} IndexOfReplaced(servers: seq<Server>, k: nat, x: Server)
    requires k < |servers| && k == IndexOf(servers, x.id)
    ensures IndexOf(servers[k := x], x.id) == k
  {
    var t := servers[k := x];
    assert forall i :: 0 <= i < k ==> t[i] == servers[i];
    assert t[k] == x;
  }

  /** AddStaging makes the server a voter at once, not a staging server; AddNonvoter turns a
      staging server into a nonvoter; neither changes the suffrage of a voter. */
  lemma AddMakes(servers: seq<Server>, r: Request)
    requires r.command == AddStaging || r.command == AddNonvoter
    ensures var after := Edited(servers, r).value;
      && HasSuffrage(after, r.id,
           if r.command == AddStaging || HasSuffrage(servers, r.id, Voter) then Voter else Nonvoter)
      && ServerOf(after, r.id).value.address == r.address
  {
    var k := IndexOf(servers, r.id);
    var after := Edited(servers, r).value;
    if k < 0 {
      assert after[|servers|].id == r.id;
      assert forall i :: 0 <= i < |servers| ==> after[i] == servers[i];
    } else {
      IndexOfReplaced(servers, k, after[k]);
    }
  }

  /** What the other commands make of a server that is there: Promote turns a staging server into
      a voter and leaves any other as it is, DemoteVoter makes it a nonvoter, RemoveServer takes
      it out; id and address stay. */
  lemma ChangeMakes(servers: seq<Server>, r: Request)
    requires r.command in {DemoteVoter, RemoveServer, Promote} && IndexOf(servers, r.id) >= 0
    ensures Edited(servers, r).Some?
    ensures var was := servers[IndexOf(servers, r.id)]; var after := Edited(servers, r).value;
      && (r.command == RemoveServer ==> |after| == |servers| - 1 && (DistinctIds(servers) ==> IndexOf(after, r.id) < 0))
      && (r.command == DemoteVoter ==> ServerOf(after, r.id) == Some(Server(Nonvoter, r.id, was.address)))
      && (r.command == Promote && was.suffrage == Staging ==>
            ServerOf(after, r.id) == Some(Server(Voter, r.id, was.address)))
      && (r.command == Promote && was.suffrage != Staging ==> ServerOf(after, r.id) == Some(was))
  {
    var k := IndexOf(servers, r.id);
    var after := Edited(servers, r).value;
    if r.command != RemoveServer {
      IndexOfReplaced(servers, k, after[k]);
      assert servers[k := after[k]] == after;
    }
  }

  /** The first server with an id. */
  function ServerOf(servers: seq<Server>, id: ServerId): Option<Server> {
    var k := IndexOf(servers, id);
    if k < 0 then None else Some(servers[k])
  }

  /** No command touches a server with another id. */
  lemma OthersStay(servers: seq<Server>, r: Request, s: Server)
    requires Edited(servers, r).Some? && s.id != r.id
    ensures s in Edited(servers, r).value <==> s in servers
  {
    var k := IndexOf(servers, r.id);
    var after := Edited(servers, r).value;
    if k < 0 {
      assert after == servers + [after[|servers|]];
    } else if r.command == RemoveServer {
      assert servers == servers[..k] + [servers[k]] + servers[k + 1..];
    } else {
      assert after == servers[k := after[k]];
      assert servers == servers[..k] + [servers[k]] + servers[k + 1..];
      assert after == servers[..k] + [after[k]] + servers[k + 1..];
    }
  }

  /** A request that asks for what is already the case. */
  predicate NoEffect(servers: seq<Server>, r: Request) {
    var k := IndexOf(servers, r.id);
    && k >= 0
    && match r.command
       case AddStaging => servers[k].suffrage == Voter && servers[k].address == r.address
       case AddNonvoter => servers[k].suffrage != Staging && servers[k].address == r.address
       case DemoteVoter => servers[k].suffrage == Nonvoter
       case RemoveServer => false
       case Promote => servers[k].suffrage != Staging
  }

  /** The list Next returns, which is the one before the edit, equals the edited one exactly
      when the request had no effect. */
  lemma ReturnsEditedExact(servers: seq<Server>, r: Request)
    ensures Edited(servers, r) == Some(servers) <==> NoEffect(servers, r)
  {
    var k := IndexOf(servers, r.id);
    if k >= 0 && r.command != RemoveServer {
      var after := Edited(servers, r).value;
      assert after[k] == servers[k] ==> after == servers;
    }
  }

  /** A second server joins a list of one voter: the receiver has it, the returned list does
      not. */
  lemma ReturnsOldExample()
    ensures var one := [Server(Voter, "a", "10.0.0.1:9000")];
      var join := Request(AddNonvoter, "b", "10.0.0.2:9000", 0);
      && Edited(one, join) == Some(one + [Server(Nonvoter, "b", "10.0.0.2:9000")])
      && Edited(one, join) != Some(one)
  {
    var one := [Server(Voter, "a", "10.0.0.1:9000")];
    assert IndexOf(one, "b") < 0;
    ReturnsEditedExact(one, Request(AddNonvoter, "b", "10.0.0.2:9000", 0));
  }

  // ---------------------------------------------------------------- runs

  function EditAll(servers: seq<Server>, rs: seq<Request>): Option<seq<Server>>
    decreases |rs|
  {
    if rs == [] then Some(servers)
    else
      var next := Edited(servers, rs[0]);
      if next.None? then None else EditAll(next.value, rs[1..])
  }

  /** Ids stay distinct over every run of changes. */
  lemma {:induction false} RunKeepsIds(servers: seq<Server>, rs: seq<Request>)
    requires DistinctIds(servers) && EditAll(servers, rs).Some?
    ensures DistinctIds(EditAll(servers, rs).value)
    decreases |rs|
  {
    hide Edited, DistinctIds;
    if rs != [] {
      OneChange(servers, rs[0]);
      RunKeepsIds(Edited(servers, rs[0]).value, rs[1..]);
    }
  }
}

/** Commitment and membership together. */
module RaftSafety {
  import opened RaftServers
  import opened RaftQuorum
  import opened RaftConfigModel
  import RaftCommitModel

  /** An index stored by a majority of the voters is stored by a member of every majority of
      the voters after one change. */
  lemma CommittedSurvives(table: RaftCommitModel.Table, servers: seq<Server>, r: Request, index: nat, b: set<ServerId>)
    requires DistinctIds(servers) && Edited(servers, r).Some?
    requires table.Keys == Voters(servers) && Majority(table, index)
    requires MajorityOf(b, Voters(Edited(servers, r).value))
    ensures exists id :: id in b && id in table && table[id] >= index
  {
    hide Edited, DistinctIds, Voters;
    var a := MatchedBy(table, index);
    assert a <= table.Keys && |table.Keys| == |table|;
    MajoritiesMeet(servers, r, a, b);
    var id :| id in a * b;
  }
}
