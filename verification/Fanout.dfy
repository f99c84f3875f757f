/** Cross-gateway fanout: local broadcast, Redis pub/sub with at-most-once
    delivery per subscriber, and the filter on a gateway's own echoes. */
module Fanout {
  import opened Hub

  type ConnId = nat

  /** One call of broadcast(); a resent message is another publication. */
  datatype Publication = Publication(uid: nat, thread: string, origin: string)

  /** What a connection's sixteen slots hold: copies of publications, and the
      acknowledgements and errors that answer the connection's own requests. */
  datatype Frame = Copy(p: Publication) | Answer

  datatype Peer = Peer(subs: set<string>, buffer: seq<Frame>)

  datatype Gateway = Gateway(id: string, conns: map<ConnId, Peer>)

  /** `wire` holds the copies Redis has accepted and not yet handed to gateway k. */
  datatype Net = Net(gateways: seq<Gateway>, wire: set<(nat, Publication)>, nextUid: nat)

  datatype Event =
    | Connect(g: nat, c: ConnId)
    | Disconnect(g: nat, c: ConnId)
    | Subscribe(g: nat, c: ConnId, thread: string)
    | Reply(g: nat, c: ConnId)
    | Drain(g: nat, c: ConnId)
    | Publish(g: nat, thread: string, redisUp: bool)
    | Receive(g: nat, p: Publication)
    | Lose(g: nat, p: Publication)

  function BroadcastTo(gw: Gateway, p: Publication): Gateway {
    gw.(conns := map c | c in gw.conns ::
      var peer := gw.conns[c];
      if p.thread in peer.subs then peer.(buffer := Offer(peer.buffer, Copy(p))) else peer)
  }

  function WithGateway(n: Net, g: nat, gw: Gateway): Net
    requires g < |n.gateways|
  {
    n.(gateways := n.gateways[g := gw])
  }

  function NewPublication(n: Net, g: nat, thread: string): Publication
    requires g < |n.gateways|
  {
    Publication(n.nextUid, thread, n.gateways[g].id)
  }

  function Step(n: Net, ev: Event): Net {
    if ev.g >= |n.gateways| then n
    else
      var gw := n.gateways[ev.g];
      match ev
      case Connect(g, c) =>
        if forall k :: 0 <= k < |n.gateways| ==> c !in n.gateways[k].conns
        then WithGateway(n, g, gw.(conns := gw.conns[c := Peer({}, [])])) else n
      case Disconnect(g, c) => WithGateway(n, g, gw.(conns := gw.conns - {c}))
      case Subscribe(g, c, thread) =>
        if c !in gw.conns then n
        else WithGateway(n, g, gw.(conns := gw.conns[c := gw.conns[c].(subs := gw.conns[c].subs + {thread})]))
      // a full buffer also closes the socket, after which the connection is removed
      case Reply(g, c) =>
        if c !in gw.conns then n
        else WithGateway(n, g, gw.(conns := gw.conns[c := gw.conns[c].(buffer := Offer(gw.conns[c].buffer, Answer))]))
      case Drain(g, c) =>
        if c !in gw.conns || gw.conns[c].buffer == [] then n
        else WithGateway(n, g, gw.(conns := gw.conns[c := gw.conns[c].(buffer := gw.conns[c].buffer[1..])]))
      case Publish(g, thread, redisUp) =>
        var p := NewPublication(n, g, thread);
        WithGateway(n, g, BroadcastTo(gw, p)).(
          wire := n.wire + (if redisUp then set k | 0 <= k < |n.gateways| :: (k, p) else {}),
          nextUid := n.nextUid + 1)
      case Receive(g, p) =>
        if (g, p) !in n.wire then n
        else
          var m := n.(wire := n.wire - {(g, p)});
          if p.origin == gw.id then m else WithGateway(m, g, BroadcastTo(gw, p))
      case Lose(g, p) => n.(wire := n.wire - {(g, p)})
  }

  function Run(n: Net, es: seq<Event>): Net {
    if es == [] then n else Step(Run(n, es[..|es| - 1]), es[|es| - 1])
  }

  /** The publication this step broadcasts on gateway `g`, if any. */
  predicate Broadcasts(n: Net, ev: Event, g: nat, p: Publication) {
    && ev.g == g < |n.gateways|
    && match ev
       case Publish(_, thread, _) => p == NewPublication(n, g, thread)
       case Receive(_, q) => p == q && (g, p) in n.wire && p.origin != n.gateways[g].id
       case _ => false
  }

  /** This step puts a copy of `p` into the buffer of connection `c` of gateway `g`. */
  predicate Queues(n: Net, ev: Event, g: nat, c: ConnId, p: Publication) {
    && Broadcasts(n, ev, g, p)
    && c in n.gateways[g].conns && p.thread in n.gateways[g].conns[c].subs
    && |n.gateways[g].conns[c].buffer| < SEND_BUFFER
  }

  /** Queues says what the step does to the buffer. */
  lemma QueuesIsAppending(n: Net, ev: Event, g: nat, c: ConnId, p: Publication)
    requires g < |n.gateways| && c in n.gateways[g].conns && Broadcasts(n, ev, g, p)
    ensures c in Step(n, ev).gateways[g].conns
    ensures Step(n, ev).gateways[g].conns[c].buffer
         == n.gateways[g].conns[c].buffer + if Queues(n, ev, g, c, p) then [Copy(p)] else []
  {
  }

  function Copies(n: Net, es: seq<Event>, g: nat, c: ConnId, p: Publication): nat {
    if es == [] then 0
    else Copies(n, es[..|es| - 1], g, c, p) + if Queues(Run(n, es[..|es| - 1]), es[|es| - 1], g, c, p) then 1 else 0
  }

  /** A gateway has been shown p: as its sender, or by Redis. Afterwards no copy
      for it is on the wire, except the echo its filter will drop. */
  ghost predicate Spent(n: Net, g: nat, p: Publication) {
    && g < |n.gateways|
    && p.uid < n.nextUid
    && ((g, p) in n.wire ==> p.origin == n.gateways[g].id)
  }

  lemma StepKeepsSpent(n: Net, ev: Event, g: nat, p: Publication)
    requires Spent(n, g, p)
    ensures Spent(Step(n, ev), g, p)
    ensures forall c :: !Queues(n, ev, g, c, p)
  {
  }

  lemma BroadcastSpends(n: Net, ev: Event, g: nat, p: Publication)
    requires Broadcasts(n, ev, g, p) && (forall q :: q in n.wire ==> q.1.uid < n.nextUid)
    ensures Spent(Step(n, ev), g, p)
  {
  }

  lemma WireIsOld(n: Net, es: seq<Event>)
    requires forall q :: q in n.wire ==> q.1.uid < n.nextUid
    ensures forall q :: q in Run(n, es).wire ==> q.1.uid < Run(n, es).nextUid
    decreases |es|
  {
    if es != [] {
      WireIsOld(n, es[..|es| - 1]);
    }
  }

  lemma {:induction false} CopiesOrSpent(n: Net, es: seq<Event>, g: nat, c: ConnId, p: Publication)
    requires forall q :: q in n.wire ==> q.1.uid < n.nextUid
    ensures Copies(n, es, g, c, p) <= 1
    ensures Copies(n, es, g, c, p) == 1 ==> Spent(Run(n, es), g, p)
    decreases |es|
  {
    if es != [] {
      var front, ev := es[..|es| - 1], es[|es| - 1];
      var m := Run(n, front);
      CopiesOrSpent(n, front, g, c, p);
      WireIsOld(n, front);
      if Spent(m, g, p) {
        StepKeepsSpent(m, ev, g, p);
      } else if Queues(m, ev, g, c, p) {
        BroadcastSpends(m, ev, g, p);
      }
    }
  }

  /** At most once: over every run, whatever is published, lost or subscribed, no
      connection is queued two copies of a publication. The echo filter makes this
      true of the sender's own gateway. */
  lemma AtMostOneCopy(n: Net, es: seq<Event>, g: nat, c: ConnId, p: Publication)
    requires n.wire == {}
    ensures Copies(n, es, g, c, p) <= 1
  {
    CopiesOrSpent(n, es, g, c, p);
  }

  lemma {:induction false} CopiesAreKept(n: Net, es: seq<Event>, k: nat, g: nat, c: ConnId, p: Publication)
    requires k <= |es|
    ensures Copies(n, es[..k], g, c, p) <= Copies(n, es, g, c, p)
    decreases |es|
  {
    if k < |es| {
      CopiesAreKept(n, es[..|es| - 1], k, g, c, p);
      assert es[..|es| - 1][..k] == es[..k];
    } else {
      assert es[..k] == es;
    }
  }

  // ---- who listens ----

  predicate Connected(n: Net, g: nat, c: ConnId) {
    g < |n.gateways| && c in n.gateways[g].conns
  }

  predicate SubscribedTo(n: Net, g: nat, c: ConnId, thread: string) {
    Connected(n, g, c) && thread in n.gateways[g].conns[c].subs
  }

  /** Event j is still standing: the connection was not closed since. */
  predicate Stands(es: seq<Event>, j: nat, g: nat, c: ConnId) {
    j < |es| && forall m :: j < m < |es| ==> es[m] != Disconnect(g, c)
  }

  /** Event j opened the connection, then connected nowhere, and still stands. */
  ghost predicate OpenedBy(n: Net, es: seq<Event>, j: nat, g: nat, c: ConnId) {
    && j < |es| && Stands(es, j, g, c) && es[j] == Connect(g, c)
    && forall k: nat :: !Connected(Run(n, es[..j]), k, c)
  }

  /** Event j subscribed the connection, open at the time, and still stands. */
  predicate SubscribedBy(n: Net, es: seq<Event>, j: nat, g: nat, c: ConnId, thread: string) {
    j < |es| && Stands(es, j, g, c) && es[j] == Subscribe(g, c, thread) && Connected(Run(n, es[..j]), g, c)
  }

  lemma StandsLater(es: seq<Event>, g: nat, c: ConnId)
    requires es != []
    ensures Stands(es, |es| - 1, g, c)
    ensures forall j: nat :: j < |es| - 1 ==>
              (Stands(es, j, g, c) <==> Stands(es[..|es| - 1], j, g, c) && es[|es| - 1] != Disconnect(g, c))
  {
  }

  lemma StepConnects(n: Net, ev: Event, g: nat, c: ConnId)
    requires g < |n.gateways|
    ensures Connected(Step(n, ev), g, c)
            <==> if ev == Connect(g, c) && (forall k: nat :: !Connected(n, k, c)) then true
                 else Connected(n, g, c) && ev != Disconnect(g, c)
  {
    if k: nat :| Connected(n, k, c) {
      assert c in n.gateways[k].conns;
    } else {
      forall k | 0 <= k < |n.gateways| ensures c !in n.gateways[k].conns {
        assert !Connected(n, k, c);
      }
    }
  }

  lemma StepSubscribes(n: Net, ev: Event, g: nat, c: ConnId, thread: string)
    requires g < |n.gateways|
    ensures SubscribedTo(Step(n, ev), g, c, thread)
            <==> if ev == Subscribe(g, c, thread) then Connected(n, g, c)
                 else SubscribedTo(n, g, c, thread) && ev != Disconnect(g, c)
  {
  }

  lemma SameGateways(n: Net, es: seq<Event>)
    ensures |Run(n, es).gateways| == |n.gateways|
    decreases |es|
  {
    if es != [] {
      SameGateways(n, es[..|es| - 1]);
    }
  }

  /** Who is connected, over every run from gateways without connections: exactly who opened
      a connection, connected nowhere, and did not close it since. */
  lemma {:induction false} ConnectedIffOpened(n: Net, es: seq<Event>, g: nat, c: ConnId)
    requires g < |n.gateways| && forall k: nat :: !Connected(n, k, c)
    ensures Connected(Run(n, es), g, c) <==> exists j: nat :: OpenedBy(n, es, j, g, c)
    decreases |es|
  {
    hide Step, Stands, Connected;
    if es != [] {
      var last := |es| - 1;
      var front, ev := es[..last], es[last];
      ConnectedIffOpened(n, front, g, c);
      SameGateways(n, front);
      StandsLater(es, g, c);
      StepConnects(Run(n, front), ev, g, c);
      forall j: nat | j < last ensures OpenedBy(n, es, j, g, c) <==> OpenedBy(n, front, j, g, c) && ev != Disconnect(g, c) {
        assert es[..j] == front[..j] && es[j] == front[j];
      }
      assert OpenedBy(n, es, last, g, c) <==> ev == Connect(g, c) && forall k: nat :: !Connected(Run(n, front), k, c);
      hide OpenedBy, Run;
      if Connected(Run(n, front), g, c) && ev != Disconnect(g, c) {
        var j: nat :| OpenedBy(n, front, j, g, c);
        OpenedIsEarlier(n, front, j, g, c);
        assert OpenedBy(n, es, j, g, c);
      }
      if j: nat :| OpenedBy(n, es, j, g, c) {
        OpenedIsEarlier(n, es, j, g, c);
      }
    }
  }

  lemma OpenedIsEarlier(n: Net, es: seq<Event>, j: nat, g: nat, c: ConnId)
    requires OpenedBy(n, es, j, g, c)
    ensures j < |es|
  {
  }

  /** Who listens to a thread: exactly who subscribed on an open connection and did not close it since. */
  lemma {:induction false} ListensIffSubscribed(n: Net, es: seq<Event>, g: nat, c: ConnId, thread: string)
    requires g < |n.gateways| && forall k: nat :: !Connected(n, k, c)
    ensures SubscribedTo(Run(n, es), g, c, thread) <==> exists j: nat :: SubscribedBy(n, es, j, g, c, thread)
    decreases |es|
  {
    hide Step, Stands, Connected;
    if es == [] {
      assert !Connected(n, g, c);
    } else {
      var last := |es| - 1;
      var front, ev := es[..last], es[last];
      ListensIffSubscribed(n, front, g, c, thread);
      SameGateways(n, front);
      StandsLater(es, g, c);
      StepSubscribes(Run(n, front), ev, g, c, thread);
      forall j: nat | j < last ensures SubscribedBy(n, es, j, g, c, thread) <==> SubscribedBy(n, front, j, g, c, thread) && ev != Disconnect(g, c) {
        assert es[..j] == front[..j] && es[j] == front[j];
      }
      assert SubscribedBy(n, es, last, g, c, thread) <==> ev == Subscribe(g, c, thread) && Connected(Run(n, front), g, c);
      hide SubscribedTo, SubscribedBy, Run;
      if j: nat :| SubscribedBy(n, front, j, g, c, thread) {
        SubscribedIsEarlier(n, front, j, g, c, thread);
        assert ev != Disconnect(g, c) ==> SubscribedBy(n, es, j, g, c, thread);
      }
      if j: nat :| SubscribedBy(n, es, j, g, c, thread) {
        SubscribedIsEarlier(n, es, j, g, c, thread);
      }
      SubscribedIsConnected(Run(n, front), g, c, thread);
    }
  }

  lemma SubscribedIsEarlier(n: Net, es: seq<Event>, j: nat, g: nat, c: ConnId, thread: string)
    requires SubscribedBy(n, es, j, g, c, thread)
    ensures j < |es|
  {
  }

  lemma SubscribedIsConnected(n: Net, g: nat, c: ConnId, thread: string)
    ensures SubscribedTo(n, g, c, thread) ==> Connected(n, g, c)
  {
  }

  ghost predicate Listening(n: Net, g: nat, c: ConnId, thread: string) {
    && g < |n.gateways| && c in n.gateways[g].conns
    && thread in n.gateways[g].conns[c].subs && |n.gateways[g].conns[c].buffer| < 16
  }

  /** Exactly once, locally: a connection subscribed on the sender's gateway with
      room in its buffer at that moment ends up with one copy, Redis up or down. */
  lemma LocalSubscribersGetOneCopy(n: Net, es: seq<Event>, k: nat, g: nat, c: ConnId)
    requires n.wire == {} && k < |es| && es[k].Publish? && es[k].g == g
    requires Listening(Run(n, es[..k]), g, c, es[k].thread)
    ensures Copies(n, es, g, c, NewPublication(Run(n, es[..k]), g, es[k].thread)) == 1
  {
    var p := NewPublication(Run(n, es[..k]), g, es[k].thread);
    assert es[..k + 1][..k] == es[..k];
    CopiesAreKept(n, es, k + 1, g, c, p);
    AtMostOneCopy(n, es, g, c, p);
  }

  /** The receive that takes a copy off the wire: the listening connection ends up with one copy
      if and only if its gateway's id differs from the origin. */
  lemma ReceivedOnceIffIdsDiffer(n: Net, es: seq<Event>, k: nat, g: nat, c: ConnId, p: Publication)
    requires n.wire == {} && k < |es| && es[k] == Receive(g, p) && (g, p) in Run(n, es[..k]).wire
    requires Listening(Run(n, es[..k]), g, c, p.thread)
    requires forall j :: 0 <= j < |es| ==> !Publishes(n, es, j, g, p)
    ensures Copies(n, es, g, c, p) == if Run(n, es[..k]).gateways[g].id != p.origin then 1 else 0
  {
    if Run(n, es[..k]).gateways[g].id != p.origin {
      assert es[..k + 1][..k] == es[..k];
      CopiesAreKept(n, es, k + 1, g, c, p);
      AtMostOneCopy(n, es, g, c, p);
    } else {
      IdsAreFixed(n, es[..k]);
      EchoFilterSilences(n, es, g, c, p);
    }
  }

  /** The publication event k makes on gateway g. */
  ghost predicate PublishedAt(n: Net, es: seq<Event>, k: nat, g: nat, thread: string, redisUp: bool, p: Publication) {
    && k < |es| && g < |n.gateways| && |Run(n, es[..k]).gateways| == |n.gateways|
    && es[k] == Publish(g, thread, redisUp) && p == NewPublication(Run(n, es[..k]), g, thread)
  }

  /** Only the event that made it ever publishes it. */
  lemma PublishedOnlyThere(n: Net, es: seq<Event>, k: nat, g: nat, thread: string, redisUp: bool, p: Publication, j: nat, h: nat)
    requires PublishedAt(n, es, k, g, thread, redisUp, p) && j < |es| && h != g && h < |n.gateways|
    ensures !Publishes(n, es, j, h, p)
  {
    if j < k {
      assert es[..j + 1][..j] == es[..j];
      IdsAreFixed(n, es[..j]);
      UidsGrow(n, es, j + 1, k);
      if es[j].Publish? && es[j].g == h {
        assert Run(n, es[..j + 1]).nextUid == Run(n, es[..j]).nextUid + 1;
      }
    } else if j > k {
      assert es[..k + 1][..k] == es[..k];
      assert Run(n, es[..k + 1]).nextUid == Run(n, es[..k]).nextUid + 1;
      UidsGrow(n, es, k + 1, j);
    }
  }

  /** With Redis up, a publication is on the wire for every gateway from its event on, until
      that gateway receives it or it is lost on the way there. */
  lemma {:induction false} OnTheWireUntilTaken(n: Net, es: seq<Event>, k: nat, m: nat, g: nat, h: nat, thread: string, p: Publication)
    requires PublishedAt(n, es, k, g, thread, true, p) && h < |n.gateways| && k < m <= |es|
    requires forall j :: k < j < m ==> es[j] != Receive(h, p) && es[j] != Lose(h, p)
    ensures (h, p) in Run(n, es[..m]).wire
    decreases m
  {
    assert es[..m][..m - 1] == es[..m - 1];
    if m > k + 1 {
      OnTheWireUntilTaken(n, es, k, m - 1, g, h, thread, p);
    }
  }

  /** Exactly once, remotely, from the publish event on: with Redis up, the first time another
      gateway h receives the publication, with no loss on the way to h before, a connection
      listening there ends up with one copy if and only if the two gateways' ids differ. */
  lemma RemoteSubscribersGetOneCopyIffIdsDiffer(n: Net, es: seq<Event>, k: nat, m: nat, g: nat, h: nat, c: ConnId, thread: string, p: Publication)
    requires n.wire == {} && PublishedAt(n, es, k, g, thread, true, p)
    requires g != h < |n.gateways| && k < m < |es| && es[m] == Receive(h, p)
    requires forall j :: k < j < m ==> es[j] != Receive(h, p) && es[j] != Lose(h, p)
    requires Listening(Run(n, es[..m]), h, c, thread)
    ensures Copies(n, es, h, c, p) == if n.gateways[g].id != n.gateways[h].id then 1 else 0
  {
    OnTheWireUntilTaken(n, es, k, m, g, h, thread, p);
    forall j | 0 <= j < |es| ensures !Publishes(n, es, j, h, p) {
      PublishedOnlyThere(n, es, k, g, thread, true, p, j, h);
    }
    IdsAreFixed(n, es[..k]);
    IdsAreFixed(n, es[..m]);
    ReceivedOnceIffIdsDiffer(n, es, m, h, c, p);
  }

  lemma NothingRan(n: Net, es: seq<Event>)
    ensures Run(n, es[..0]) == n
  {
  }

  lemma RunStep(n: Net, es: seq<Event>, m: nat)
    requires m < |es|
    ensures Run(n, es[..m + 1]) == Step(Run(n, es[..m]), es[m])
  {
    assert es[..m + 1][..m] == es[..m];
  }

  lemma UidIsSpent(n: Net, es: seq<Event>, k: nat, g: nat, thread: string, redisUp: bool, p: Publication, m: nat)
    requires PublishedAt(n, es, k, g, thread, redisUp, p) && m <= |es|
    ensures m <= k ==> Run(n, es[..m]).nextUid <= p.uid
    ensures m > k ==> Run(n, es[..m]).nextUid > p.uid
  {
    RunStep(n, es, k);
    assert Run(n, es[..k + 1]).nextUid == p.uid + 1;
    hide Run, Step;
    if m <= k {
      UidsGrow(n, es, m, k);
    } else {
      UidsGrow(n, es, k + 1, m);
    }
  }

  lemma {:induction false} NeverOnTheWire(n: Net, es: seq<Event>, k: nat, m: nat, g: nat, h: nat, thread: string, p: Publication)
    requires n.wire == {} && PublishedAt(n, es, k, g, thread, false, p) && m <= |es|
    ensures (h, p) !in Run(n, es[..m]).wire
    decreases m
  {
    NothingRan(n, es);
    hide Run, Step;
    if m > 0 {
      NeverOnTheWire(n, es, k, m - 1, g, h, thread, p);
      RunStep(n, es, m - 1);
      UidIsSpent(n, es, k, g, thread, false, p, m - 1);
      UidIsSpent(n, es, k, g, thread, false, p, m);
      NotPutOnTheWire(Run(n, es[..m - 1]), es[m - 1], h, p);
    }
  }

  lemma NotPutOnTheWire(n: Net, ev: Event, h: nat, p: Publication)
    requires (h, p) !in n.wire
    requires (ev.Publish? && !ev.redisUp) || n.nextUid > p.uid || Step(n, ev).nextUid <= p.uid
    ensures (h, p) !in Step(n, ev).wire
  {
  }

  /** With Redis down no other gateway ever queues the publication. */
  lemma {:induction false} RedisDownStaysLocal(n: Net, es: seq<Event>, k: nat, g: nat, h: nat, c: ConnId, thread: string, p: Publication)
    requires n.wire == {} && PublishedAt(n, es, k, g, thread, false, p) && h != g && h < |n.gateways|
    ensures Copies(n, es, h, c, p) == 0
  {
    QueuedByNobody(n, es, |es|, k, g, h, c, thread, p);
    assert es[..|es|] == es;
  }

  lemma {:induction false} QueuedByNobody(n: Net, es: seq<Event>, m: nat, k: nat, g: nat, h: nat, c: ConnId, thread: string, p: Publication)
    requires n.wire == {} && PublishedAt(n, es, k, g, thread, false, p) && h != g && h < |n.gateways| && m <= |es|
    ensures Copies(n, es[..m], h, c, p) == 0
    decreases m
  {
    if m > 0 {
      QueuedByNobody(n, es, m - 1, k, g, h, c, thread, p);
      assert es[..m][..m - 1] == es[..m - 1];
      NeverOnTheWire(n, es, k, m - 1, g, h, thread, p);
      PublishedOnlyThere(n, es, k, g, thread, false, p, m - 1, h);
    }
  }

  /** Event j is the call that publishes p on gateway g. */
  predicate Publishes(n: Net, es: seq<Event>, j: nat, g: nat, p: Publication)
    requires j < |es|
  {
    es[j].Publish? && es[j].g == g && Run(n, es[..j]).nextUid == p.uid
  }

  lemma {:induction false} UidsGrow(n: Net, es: seq<Event>, k: nat, j: nat)
    requires k <= j <= |es|
    ensures Run(n, es[..k]).nextUid <= Run(n, es[..j]).nextUid
    decreases j
  {
    if k < j {
      UidsGrow(n, es, k, j - 1);
      assert es[..j][..j - 1] == es[..j - 1];
    }
  }

  /** A gateway whose id is the publication's origin queues it only as its publisher. */
  lemma {:induction false} EchoFilterSilences(n: Net, es: seq<Event>, g: nat, c: ConnId, p: Publication)
    requires g < |n.gateways| && n.gateways[g].id == p.origin
    requires forall j :: 0 <= j < |es| ==> !Publishes(n, es, j, g, p)
    ensures Copies(n, es, g, c, p) == 0
    decreases |es|
  {
    if es != [] {
      var front := es[..|es| - 1];
      forall j | 0 <= j < |front| ensures !Publishes(n, front, j, g, p) {
        assert front[..j] == es[..j];
        assert !Publishes(n, es, j, g, p);
      }
      EchoFilterSilences(n, front, g, c, p);
      IdsAreFixed(n, front);
      assert !Publishes(n, es, |front|, g, p);
    }
  }

  lemma {:induction false} IdsAreFixed(n: Net, es: seq<Event>)
    ensures |Run(n, es).gateways| == |n.gateways|
    ensures forall g :: 0 <= g < |n.gateways| ==> Run(n, es).gateways[g].id == n.gateways[g].id
    decreases |es|
  {
    if es != [] {
      IdsAreFixed(n, es[..|es| - 1]);
    }
  }
}
