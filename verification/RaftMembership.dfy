/** The configuration object, whose server list the operations change in place. */
module RaftMembership {
  import opened Bytes
  import opened RaftServers
  import opened RaftConfigModel

  datatype CheckError =
    | EmptyId
    | EmptyAddress(server: Server)
    | DuplicateId(id: ServerId)
    | DuplicateAddress(address: ServerAddress)
    | NoVoter

  function Addresses(servers: seq<Server>): set<ServerAddress> {
    set s | s in servers :: s.address
  }

  predicate WellListed(servers: seq<Server>) {
    Named(servers) && DistinctIds(servers) && DistinctAddresses(servers)
  }

  /** The server at i is the first one Check objects to, for the given reason. */
  predicate FaultAt(servers: seq<Server>, i: nat, e: CheckError) {
    && i < |servers| && WellListed(servers[..i])
    && var s := servers[i];
    match e
    case EmptyId => s.id == ""
    case EmptyAddress(x) => x == s && s.id != "" && s.address == ""
    case DuplicateId(id) => id == s.id && id != "" && s.address != "" && id in Ids(servers[..i])
    case DuplicateAddress(a) => a == s.address && a != "" && s.id != "" && s.id !in Ids(servers[..i]) && a in Addresses(servers[..i])
    case NoVoter => false
  }

  lemma FaultBreaks(servers: seq<Server>, i: nat, e: CheckError)
    requires FaultAt(servers, i, e)
    ensures !WellListed(servers)
  {
  }

  lemma ExtendListed(servers: seq<Server>, i: nat)
    requires i < |servers| && WellListed(servers[..i])
    requires servers[i].id != "" && servers[i].address != ""
    requires servers[i].id !in Ids(servers[..i]) && servers[i].address !in Addresses(servers[..i])
    ensures WellListed(servers[..i + 1])
    ensures Ids(servers[..i + 1]) == Ids(servers[..i]) + {servers[i].id}
    ensures Addresses(servers[..i + 1]) == Addresses(servers[..i]) + {servers[i].address}
  {
  }

  datatype NextResult = Stale | Panic | Invalid(error: CheckError) | Accepted(configuration: Configuration)

  class Configuration {
    var servers: seq<Server>

    constructor (servers: seq<Server>)
      ensures this.servers == servers
    {
      this.servers := servers;
    }

    method Clone() returns (other: Configuration)
      ensures fresh(other) && other.servers == servers
    {
      other := new Configuration(servers);
    }

    method HasVote(id: ServerId) returns (r: bool)
      ensures r <==> HasSuffrage(servers, id, Voter)
    {
      var i := 0;
      while i < |servers|
        invariant 0 <= i <= |servers| && forall j :: 0 <= j < i ==> servers[j].id != id
      {
        if servers[i].id == id {
          return servers[i].suffrage == Voter;
        }
        i := i + 1;
      }
      return false;
    }

    /** indexof. */
    method FindServer(id: ServerId) returns (k: int)
      ensures k == IndexOf(servers, id)
    {
      k := 0;
      while k < |servers|
        invariant 0 <= k <= |servers| && forall i :: 0 <= i < k ==> servers[i].id != id
      {
        if servers[k].id == id { return; }
        k := k + 1;
      }
      k := -1;
    }

    /** Check accepts exactly the lists with non-empty, distinct ids and addresses and a voter,
        and otherwise names the first fault. */
    method Check() returns (err: Option<CheckError>)
      ensures err == None <==> Checked(servers)
      ensures err.Some? && err.value.NoVoter? ==> WellListed(servers) && Voters(servers) == {}
      ensures err.Some? && !err.value.NoVoter? ==> exists i: nat :: FaultAt(servers, i, err.value)
    {
      hide WellListed, Voters, Ids, Addresses, FaultAt;
      var ids, addresses := {}, {};
      var voters := 0;
      var i := 0;
      EmptyListed();
      assert servers[..0] == [];
      while i < |servers|
        invariant 0 <= i <= |servers| && WellListed(servers[..i])
        invariant ids == Ids(servers[..i]) && addresses == Addresses(servers[..i])
        invariant voters >= 0 && (voters == 0 <==> Voters(servers[..i]) == {})
      {
        var s := servers[i];
        var e := CheckOne(ids, addresses, i);
        if e.Some? {
          FaultBreaks(servers, i, e.value);
          WellListedIs(servers);
          return e;
        }
        ExtendListed(servers, i);
        VotersGrow(servers, i);
        ids, addresses := ids + {s.id}, addresses + {s.address};
        if s.suffrage == Voter {
          voters := voters + 1;
        }
        i := i + 1;
      }
      assert servers[..i] == servers;
      WellListedIs(servers);
      err := if voters < 1 then Some(NoVoter) else None;
    }

    /** The checks on one server, given what the servers before it use. */
    method CheckOne(ids: set<ServerId>, addresses: set<ServerAddress>, i: nat) returns (e: Option<CheckError>)
      requires i < |servers| && WellListed(servers[..i])
      requires ids == Ids(servers[..i]) && addresses == Addresses(servers[..i])
      ensures e.Some? ==> FaultAt(servers, i, e.value) && !e.value.NoVoter?
      ensures e.None? ==> servers[i].id != "" && servers[i].address != "" && servers[i].id !in ids && servers[i].address !in addresses
    {
      var s := servers[i];
      if |s.id| < 1 { return Some(EmptyId); }
      if |s.address| < 1 { return Some(EmptyAddress(s)); }
      if s.id in ids { return Some(DuplicateId(s.id)); }
      if s.address in addresses { return Some(DuplicateAddress(s.address)); }
      return None;
    }

    /** addServer. */
    method AddServer(k: int, suffrage: Suffrage, r: Request)
      requires -1 <= k < |servers|
      modifies this
      ensures servers == RaftConfigModel.AddServer(old(servers), k, suffrage, r)
    {
      if k < 0 {
        servers := servers + [Server(suffrage, r.id, r.address)];
      } else if servers[k].suffrage == Voter {
        servers := servers[k := servers[k].(address := r.address)];
      } else {
        servers := servers[k := Server(suffrage, r.id, r.address)];
      }
    }

    /** Next edits the receiver; it checks and returns the copy taken before the edit. A panic on
        an absent server comes before any edit. */
    method Next(currentIndex: nat, r: Request) returns (result: NextResult)
      modifies this
      ensures result.Stale? <==> r.prevIndex > 0 && r.prevIndex != currentIndex
      ensures !result.Stale? ==> (result.Panic? <==> Edited(old(servers), r).None?)
      ensures servers == if result.Stale? || result.Panic? then old(servers) else Edited(old(servers), r).value
      ensures !result.Stale? && !result.Panic? ==> (result.Accepted? <==> Checked(old(servers)))
      ensures result.Accepted? ==> fresh(result.configuration) && result.configuration.servers == old(servers)
    {
      hide Checked, IndexOf;
      if r.prevIndex > 0 && r.prevIndex != currentIndex {
        return Stale;
      }
      var k := FindServer(r.id);
      var configuration := Clone();
      match r.command {
      case AddStaging => AddServer(k, Voter, r);
      case AddNonvoter => AddServer(k, Nonvoter, r);
      case DemoteVoter =>
        if k < 0 { return Panic; }
        servers := servers[k := servers[k].(suffrage := Nonvoter)];
      case RemoveServer =>
        if k < 0 { return Panic; }
        servers := servers[..k] + servers[k + 1..];
      case Promote =>
        if k < 0 { return Panic; }
        if servers[k].suffrage == Staging {
          servers := servers[k := servers[k].(suffrage := Voter)];
        }
      }
      var err := configuration.Check();
      if err.Some? {
        return Invalid(err.value);
      }
      return Accepted(configuration);
    }
  }

  lemma EmptyListed()
    ensures WellListed([]) && Ids([]) == {} && Addresses([]) == {} && Voters([]) == {}
  {
  }

  lemma WellListedIs(servers: seq<Server>)
    ensures Checked(servers) <==> WellListed(servers) && Voters(servers) != {}
  {
  }

  lemma VotersGrow(servers: seq<Server>, i: nat)
    requires i < |servers|
    ensures Voters(servers[..i + 1]) == Voters(servers[..i]) + if servers[i].suffrage == Voter then {servers[i].id} else {}
  {
  }
}
