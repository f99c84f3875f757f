/** The gateway's connection registry: three mutable indexes over live connections. */
module Hub {
  const SEND_BUFFER := 16

  /** A non-blocking send on a channel of sixteen slots: a full buffer drops the payload. */
  function Offer<P>(buffer: seq<P>, payload: P): seq<P> {
    if |buffer| < SEND_BUFFER then buffer + [payload] else buffer
  }

  class Conn {
    var userID: string
    var subs: set<string>
    var send: seq<string>

    constructor ()
      ensures userID == "" && subs == {} && send == []
    {
      userID, subs, send := "", {}, [];
    }
  }

  class Registry {
    var conns: set<Conn>
    var userConns: map<string, set<Conn>>
    var threadSubs: map<string, set<Conn>>

    constructor ()
      ensures Valid() && conns == {}
    {
      conns, userConns, threadSubs := {}, map[], map[];
    }

    /** The two indexes are the exact inverses of what the live connections say,
        and keep no empty set. */
    ghost predicate Valid()
      reads this, conns
    {
      && (forall t :: t in threadSubs ==> threadSubs[t] != {} && threadSubs[t] <= conns)
      && (forall t, c :: c in conns ==> (t in c.subs <==> t in threadSubs && c in threadSubs[t]))
      && (forall u :: u in userConns ==> userConns[u] != {} && userConns[u] <= conns)
      && (forall u, c :: c in conns ==> (c.userID == u && u != "" <==> u in userConns && c in userConns[u]))
    }

    /** Validity pins both indexes down: they are functions of the live connections. */
    lemma IndexesAreDetermined(subs: map<string, set<Conn>>, users: map<string, set<Conn>>)
      requires Valid()
      requires forall t :: t in subs <==> exists c :: c in conns && t in c.subs
      requires forall t :: t in subs ==> subs[t] == set c | c in conns && t in c.subs
      requires forall u :: u in users <==> u != "" && exists c :: c in conns && c.userID == u
      requires forall u :: u in users ==> users[u] == set c | c in conns && c.userID == u
      ensures threadSubs == subs && userConns == users
    {
      forall t ensures t in threadSubs <==> t in subs {
        if t in threadSubs {
          var c :| c in threadSubs[t];
          assert c in conns && t in c.subs;
        }
      }
      forall u ensures u in userConns <==> u in users {
        if u in userConns {
          var c :| c in userConns[u];
          assert c in conns && c.userID == u;
        }
      }
      forall t | t in subs ensures threadSubs[t] == subs[t] {
      }
      forall u | u in users ensures userConns[u] == users[u] {
      }
    }

    method AddConn(c: Conn)
      requires Valid() && c !in conns && c.userID == "" && c.subs == {}
      modifies this`conns
      ensures Valid() && conns == old(conns) + {c}
    {
      conns := conns + {c};
    }

    /** Called once per connection, by the reader that authenticated it. */
    method AttachUser(c: Conn, userID: string)
      requires Valid() && c in conns && c.userID == "" && userID != ""
      modifies this`userConns, c`userID
      ensures Valid() && c.userID == userID
    {
      c.userID := userID;
      if userID !in userConns {
        userConns := userConns[userID := {}];
      }
      userConns := userConns[userID := userConns[userID] + {c}];
    }

    method Subscribe(c: Conn, threadID: string)
      requires Valid() && c in conns
      modifies this`threadSubs, c`subs
      ensures Valid() && c.subs == old(c.subs) + {threadID}
    {
      c.subs := c.subs + {threadID};
      if threadID !in threadSubs {
        threadSubs := threadSubs[threadID := {}];
      }
      threadSubs := threadSubs[threadID := threadSubs[threadID] + {c}];
    }

    method RemoveConn(c: Conn)
      requires Valid() && c in conns
      modifies this
      ensures Valid() && conns == old(conns) - {c}
    {
      conns := conns - {c};
      if c.userID != "" && c.userID in userConns {
        var left := userConns[c.userID] - {c};
        userConns := if left == {} then userConns - {c.userID} else userConns[c.userID := left];
      }
      RemoveSubscriptions(c);
    }

    /** The loop over the connection's own subscriptions. */
    method RemoveSubscriptions(c: Conn)
      requires forall t :: t in c.subs <==> t in threadSubs && c in threadSubs[t]
      requires forall t :: t in threadSubs ==> threadSubs[t] != {}
      modifies this`threadSubs
      ensures forall t :: t in threadSubs <==> t in old(threadSubs) && old(threadSubs)[t] - {c} != {}
      ensures forall t :: t in threadSubs ==> threadSubs[t] == old(threadSubs)[t] - {c}
    {
      var todo := c.subs;
      while todo != {}
        invariant todo <= c.subs
        invariant forall t :: t in todo ==> t in threadSubs && threadSubs[t] == old(threadSubs)[t]
        invariant forall t :: t !in todo ==>
          (t in threadSubs <==> t in old(threadSubs) && old(threadSubs)[t] - {c} != {})
          && (t in threadSubs ==> threadSubs[t] == old(threadSubs)[t] - {c})
        decreases |todo|
      {
        var t :| t in todo;
        todo := todo - {t};
        var left := threadSubs[t] - {c};
        threadSubs := if left == {} then threadSubs - {t} else threadSubs[t := left];
      }
    }

    /** Every live subscriber of the thread is offered the payload once; no one else is. */
    method Broadcast(threadID: string, payload: string)
      requires Valid()
      modifies conns`send
      ensures forall c :: c in conns ==>
        c.send == if threadID in c.subs && |old(c.send)| < 16 then old(c.send) + [payload] else old(c.send)
    {
      if threadID !in threadSubs {
        return;
      }
      var todo := threadSubs[threadID];
      while todo != {}
        invariant todo <= threadSubs[threadID]
        invariant forall c :: c in conns ==>
          c.send == if c in threadSubs[threadID] && c !in todo then Offer(old(c.send), payload) else old(c.send)
        decreases |todo|
      {
        var c :| c in todo;
        todo := todo - {c};
        if |c.send| < SEND_BUFFER {
          c.send := c.send + [payload];
        }
      }
    }
  }
}
