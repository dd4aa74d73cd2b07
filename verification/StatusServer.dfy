/** `StatusServerImpl`: assigns a chat server and a token to a user, and checks the token when the user logs in. */
module StatusServers {
  import opened LoadBalance
  import opened TokenTable

  datatype ChatServer = ChatServer(name: string, host: string, port: string, count: nat)

  function Counts(servers: seq<ChatServer>): (counts: seq<nat>)
  {
    seq(|servers|, i requires 0 <= i < |servers| => servers[i].count)
  }

  ghost predicate DistinctNames(servers: seq<ChatServer>)
  {
    forall i, j :: 0 <= i < j < |servers| ==> servers[i].name != servers[j].name
  }

  /** A server after a login on the server called `host` has been counted. */
  function Counted(s: ChatServer, host: string): (r: ChatServer)
  {
    if s.name == host then s.(count := Bump(s.count)) else s
  }

  datatype Assignment = Assignment(host: string, port: string, token: string)

  class StatusServerImpl {
    var servers: seq<ChatServer>
    var session: map<string, string>

    constructor (host1: string, port1: string, host2: string, port2: string)
      ensures |servers| == 2 && DistinctNames(servers) && session == Table([])
      ensures Counts(servers) == Fresh(2).counts
    {
      var server := ChatServer("ChatServer1", host1, port1, 0);
      var other := ChatServer("ChatServer2", host2, port2, 0);
      assert server.name[10] != other.name[10];
      servers := [server, other];
      session := map[];
    }

    /** The whole call without interleaving; `token` is a fresh uuid.  The server assigned has the smallest count,
        the first one of those. */
    method GetChartServer(uid: string, token: string) returns (response: Assignment)
      requires servers != []
      modifies this`session
      ensures session == old(session)[uid := token]
      ensures response.token == token
      ensures var s := servers[Select(Counts(servers), servers[0].count)];
              && response.host == s.host && response.port == s.port
              && forall other <- servers :: s.count <= other.count
    {
      EraseSession(uid);
      var first := servers[0];
      var server := SelectServer(first);
      response := Assignment(server.host, server.port, token);
      InsertToken(uid, token);
      forall other | other in servers ensures servers[Select(Counts(servers), servers[0].count)].count <= other.count {
        var i :| 0 <= i < |servers| && servers[i] == other;
        assert Counts(servers)[i] == other.count;
      }
    }

    method EraseSession(uid: string)
      modifies this`session
      ensures session == Apply(old(session), Erase(0, uid))
    {
      if uid in session {
        session := session - {uid};
      }
    }

    /** The scan under the lock, started from a copy of `servers_[0]` taken earlier. */
    method SelectServer(copied: ChatServer) returns (server: ChatServer)
      requires servers != [] && copied.(count := 0) == servers[0].(count := 0)
      ensures var s := servers[Select(Counts(servers), copied.count)];
              server.name == s.name && server.host == s.host && server.port == s.port
    {
      server := copied;
      for i := 0 to |servers|
        invariant var best := Best(Counts(servers), copied.count, i);
                  server.(count := 0) == servers[best.server].(count := 0) && server.count == best.count
      {
        if servers[i].count < server.count {
          server := servers[i];
        }
      }
    }

    method InsertToken(uid: string, token: string)
      modifies this`session
      ensures session == Apply(old(session), Insert(0, uid, token))
    {
      if uid !in session {
        session := session[uid := token];
      }
    }

    /** Succeeds exactly if `token` is the one held for `uid`, which it leaves in place; then the counter of every
        server of that name goes up, modulo 2^32. */
    method Login(uid: string, token: string, host: string) returns (ok: bool)
      modifies this`servers
      ensures ok <==> uid in session && session[uid] == token
      ensures !ok ==> servers == old(servers)
      ensures |servers| == |old(servers)|
      ensures ok ==> forall i :: 0 <= i < |servers| ==> servers[i] == Counted(old(servers)[i], host)
    {
      var tag := uid in session && session[uid] == token;
      if !tag {
        return false;
      }
      for i := 0 to |servers|
        invariant |servers| == |old(servers)|
        invariant forall j :: i <= j < |servers| ==> servers[j] == old(servers)[j]
        invariant forall j :: 0 <= j < i ==> servers[j] == Counted(old(servers)[j], host)
      {
        if servers[i].name == host {
          servers := servers[i := servers[i].(count := Bump(servers[i].count))];
        }
      }
      return true;
    }
  }

  /** What `Login` does to the counters is a `Login` step of the balance: one counter goes up. */
  lemma LoginBumpsOne(before: seq<ChatServer>, after: seq<ChatServer>, s: nat)
    requires DistinctNames(before) && s < |before| && |after| == |before|
    requires forall i :: 0 <= i < |after| ==> after[i] == Counted(before[i], before[s].name)
    ensures Counts(after) == Counts(before)[s := Bump(Counts(before)[s])] && DistinctNames(after)
  {
    forall i | 0 <= i < |after| ensures Counts(after)[i] == Counts(before)[s := Bump(Counts(before)[s])][i] {
      if i != s {
        assert before[i].name != before[s].name;
      }
    }
  }
}
