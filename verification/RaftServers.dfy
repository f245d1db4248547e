/** Servers of a Raft cluster, src/hustmeta/raft/def.go. */
module RaftServers {
  type ServerId = string

  type ServerAddress = string

  datatype Suffrage = Voter | Nonvoter | Staging

  datatype Server = Server(suffrage: Suffrage, id: ServerId, address: ServerAddress)

  function Ids(servers: seq<Server>): set<ServerId> {
    set s | s in servers :: s.id
  }

  function Voters(servers: seq<Server>): set<ServerId> {
    set s | s in servers && s.suffrage == Voter :: s.id
  }
}
