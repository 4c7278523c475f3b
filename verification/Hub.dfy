/** The hub's three methods as they change the client map and the send channels under the lock. */
module HubObject {
  import P = HubProtocol

  type EnvId = P.EnvId
  type Message = P.Message

  class Client {
    const envID: EnvId
    var send: seq<Message>
    var closed: bool

    constructor (envID: EnvId)
      ensures this.envID == envID && send == [] && !closed
    {
      this.envID := envID;
      send := [];
      closed := false;
    }
  }

  class Hub {
    var clients: map<EnvId, set<Client>>

    constructor ()
      ensures Valid() && clients == map[]
    {
      clients := map[];
    }

    /** Every set is non-empty and holds open clients of its own environment with at most 64 messages waiting. */
    ghost predicate Valid()
      reads this, Everyone()
    {
      && (forall env :: env in clients ==> clients[env] != {})
      && (forall env, c :: env in clients && c in clients[env] ==>
            c.envID == env && !c.closed && |c.send| <= P.CAPACITY)
    }

    ghost function Everyone(): set<Client>
      reads this
    {
      set env, c | env in clients && c in clients[env] :: c
    }

    function Members(env: EnvId): set<Client>
      reads this
    {
      if env in clients then clients[env] else {}
    }

    method Register(c: Client)
      requires Valid() && !c.closed && c.send == []
      modifies this
      ensures Valid()
      ensures Members(c.envID) == old(Members(c.envID)) + {c}
      ensures forall env :: env != c.envID ==> Members(env) == old(Members(env))
    {
      if c.envID !in clients {
        clients := clients[c.envID := {}];
      }
      clients := clients[c.envID := clients[c.envID] + {c}];
    }

    method Unregister(c: Client)
      requires Valid() && !c.closed
      modifies this, c`closed
      ensures Valid() && c.closed
      ensures Members(c.envID) == old(Members(c.envID)) - {c}
      ensures c.envID in clients <==> old(Members(c.envID)) - {c} != {}
      ensures forall env :: env != c.envID ==> Members(env) == old(Members(env))
    {
      if c.envID in clients {
        var rest := clients[c.envID] - {c};
        clients := clients[c.envID := rest];
        if rest == {} {
          clients := clients - {c.envID};
        }
      }
      c.closed := true;
    }

    /** A client of the environment gets one copy at the end of its buffer, or nothing if 64 messages wait;
        no other client is touched. */
    method Broadcast(env: EnvId, b: Message)
      requires Valid()
      modifies Members(env)
      ensures Valid()
      ensures forall c :: c in Members(env) ==> c.send == if |old(c.send)| < 64 then old(c.send) + [b] else old(c.send)
    {
      var rest := Members(env);
      while rest != {}
        invariant rest <= Members(env)
        invariant forall c :: c in rest ==> c.send == old(c.send)
        invariant forall c :: c in Members(env) - rest ==>
          c.send == if |old(c.send)| < 64 then old(c.send) + [b] else old(c.send)
        invariant forall c :: c in Members(env) ==> c.closed == old(c.closed)
        decreases rest
      {
        var c :| c in rest;
        if |c.send| < P.CAPACITY {
          c.send := c.send + [b];
        }
        rest := rest - {c};
      }
    }

    /** The write pump takes the oldest message. */
    method Take(c: Client) returns (m: Message)
      requires Valid() && c.send != []
      modifies c`send
      ensures Valid() && [m] + c.send == old(c.send)
    {
      m := c.send[0];
      c.send := c.send[1..];
    }

    /** The whole life of a connection: whatever it leaves in the buffer, the map is as it was before. */
    method Serve(c: Client)
      requires Valid() && !c.closed && c.send == [] && c !in Members(c.envID)
      modifies this, c`closed
      ensures Valid() && c.closed && clients == old(clients)
    {
      Register(c);
      Unregister(c);
      assert forall env :: env in clients ==> Members(env) == old(Members(env));
      assert forall env :: env in old(clients) ==> Members(env) == old(Members(env));
    }
  }
}
