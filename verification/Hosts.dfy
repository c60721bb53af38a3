/** Isolation between hosts: exact when no two peers share a descriptor and a port, broken when they do. */
module Hosts {
  import opened Options
  import opened Bytes
  import opened Wire
  import opened Requests
  import opened Sessions
  import opened Clients
  import opened Servers
  import opened Pools
  import opened Listeners
  import opened ReadTransfers
  import opened Isolation

  /** The steps of one host in a run: the datagrams it sent itself, and the passes that visit its client. */
  function StepsFrom(listeners: seq<Socket>, evs: seq<Event>, fd: int, host: Address): (es: seq<Step>)
    requires AllSensible(evs)
    ensures StepsFit(es)
  {
    if evs == [] then []
    else
      var before := evs[..|evs| - 1];
      var e := evs[|evs| - 1];
      StepsFrom(listeners, before, fd, host) +
      if e.Datagram? && (e.fd != fd || e.addr != host) then []
      else StepsBy(Run(listeners, before).clients, e, KeyOf(fd, host))
  }

  /** The host's client, and everything sent for it, are what its own datagrams produce alone. */
  ghost predicate HostIsolated(listeners: seq<Socket>, evs: seq<Event>, fd: int, host: Address)
    requires AllSensible(evs)
  {
    var v, k := Run(listeners, evs), KeyOf(fd, host);
    AloneRun(fd, StepsFrom(listeners, evs, fd, host)) == Alone(ClientOf(v.clients, k), SentTo(v.wire, k))
  }

  /** Another peer sends to the same descriptor from the same port. */
  ghost predicate Shared(peers: Peers, fd: int, host: Address) {
    exists q :: q in peers && q != (fd, host) && q.0 == fd && SamePort(q.1, host)
  }

  lemma SharedIsSameKey(peers: Peers, fd: int, host: Address)
    ensures Shared(peers, fd, host) <==> exists q :: q in peers && q != (fd, host) && KeyOf(q.0, q.1) == KeyOf(fd, host)
  {
    hide KeyOf, SamePort;
    forall q: (int, Address)
      ensures KeyOf(q.0, q.1) == KeyOf(fd, host) <==> q.0 == fd && SamePort(q.1, host)
    {
      KeysTellPortsApart(q.0, q.1, fd, host);
    }
  }

  lemma {:induction false} UnsharedStepsAreOwn(listeners: seq<Socket>, evs: seq<Event>, peers: Peers, fd: int, host: Address)
    requires AllSensible(evs) && PeersOnly(evs, peers) && !Shared(peers, fd, host)
    ensures StepsFrom(listeners, evs, fd, host) == StepsOf(listeners, evs, KeyOf(fd, host))
    decreases |evs|
  {
    hide Run, FlushVisits, CheckedAt;
    if evs != [] {
      var before, e := evs[..|evs| - 1], evs[|evs| - 1];
      assert PeersOnly(before, peers);
      UnsharedStepsAreOwn(listeners, before, peers, fd, host);
      if e.Datagram? {
        SharedIsSameKey(peers, fd, host);
        assert (e.fd, e.addr) in peers;
      }
    }
  }

  /** One datagram from a stranger on the same port makes a client the host never asked for. */
  lemma StrangerMakesClient(listeners: seq<Socket>, fd: int, stranger: Address, host: Address, env: Env)
    requires stranger != host && SamePort(stranger, host) && HasSession(host)
    ensures var evs := [Datagram(fd, stranger, Goodbye, env, 0)];
      AllSensible(evs) && !HostIsolated(listeners, evs, fd, host)
  {
    hide Deliver, React, NewClient;
    GoodbyeReaction(env);
    KeysTellPortsApart(fd, stranger, fd, host);
    LostPortOnly(fd, host);
    var e := Datagram(fd, stranger, Goodbye, env, 0);
    var evs := [e];
    assert evs[..0] == [];
    var k := KeyOf(fd, host);
    assert k.port != LOST_PORT;
    RunsAreKeyed(listeners, []);
    assert Run(listeners, evs[..0]) == Init(listeners);
    assert ClientOf([], k) == None;
    ReceiveSeenBy(Init(listeners), fd, stranger, Goodbye, env, 0, k);
    assert Run(listeners, evs) == Receive(Init(listeners), fd, stranger, Goodbye, env, 0);
    assert StepsFrom(listeners, evs[..0], fd, host) == [];
    assert StepsFrom(listeners, evs, fd, host) == [];
  }

  /**
   A host's session depends only on its own datagrams, in all runs of these peers, if and only if no
   other peer sends to the same descriptor from the same port.
   */
  lemma HostsAreIsolatedIffPortsDiffer(listeners: seq<Socket>, peers: Peers, fd: int, host: Address, env: Env)
    requires HasSession(host)
    ensures (forall evs :: AllSensible(evs) && PeersOnly(evs, peers) ==> HostIsolated(listeners, evs, fd, host))
      <==> !Shared(peers, fd, host)
  {
    hide HostIsolated, Sensible, StepsFrom;
    if Shared(peers, fd, host) {
      var q :| q in peers && q != (fd, host) && q.0 == fd && SamePort(q.1, host);
      StrangerMakesClient(listeners, fd, q.1, host, env);
      var evs := [Datagram(fd, q.1, Goodbye, env, 0)];
      assert AllSensible(evs) && PeersOnly(evs, peers) && !HostIsolated(listeners, evs, fd, host);
    } else {
      forall evs | AllSensible(evs) && PeersOnly(evs, peers)
        ensures HostIsolated(listeners, evs, fd, host)
      {
        UnsharedIsIsolated(listeners, evs, peers, fd, host);
      }
    }
  }

  lemma UnsharedIsIsolated(listeners: seq<Socket>, evs: seq<Event>, peers: Peers, fd: int, host: Address)
    requires AllSensible(evs) && PeersOnly(evs, peers) && !Shared(peers, fd, host) && HasSession(host)
    ensures HostIsolated(listeners, evs, fd, host)
  {
    hide Run, AloneRun, ClientOf, SentTo, StepsFrom, StepsOf;
    KeyDescriptor(fd, host);
    LostPortOnly(fd, host);
    UnsharedStepsAreOwn(listeners, evs, peers, fd, host);
    SessionsAreIsolated(listeners, evs, KeyOf(fd, host));
  }

  // ---------- A stranger's acknowledgement moves the host's transfer ----------

  function SentToHost(fd: int, host: Address, ps: seq<seq<Byte>>): seq<Sent> {
    seq(|ps|, i requires 0 <= i < |ps| => Sent(fd, host, ps[i]))
  }

  /**
   Host a asks for a file and acknowledges nothing; host b, on the same port, acknowledges once. The
   next flush sends a the second part of its stream.
   */
  lemma StrangerAdvancesTransfer(
      listeners: seq<Socket>, fd: int, a: Address, b: Address, request: seq<Byte>, ack: seq<Byte>, env: Env, now: int,
      file: seq<Byte>, m: Mode)
    requires a != b && SamePort(a, b) && HasSession(a)
    requires IsReadRequest(request, env, file, m) && IsAck(ack)
    ensures var evs := [Datagram(fd, a, request, env, now), Datagram(fd, b, ack, env, now), SendPass];
      AllSensible(evs) && Run(listeners, evs).wire == SentToHost(fd, a, Stream(file, m, 1))
  {
    hide React, Deliver, NewClient, IsReadRequest, Stream, QueuedBytes, FindClient, Flush, SentBy;
    var evs := [Datagram(fd, a, request, env, now), Datagram(fd, b, ack, env, now), SendPass];
    TwoDatagramsFit(request, ack, env, file, m);
    KeysTellPortsApart(fd, a, fd, b);
    LostPortOnly(fd, a);
    var v0 := Init(listeners);
    var v1 := Receive(v0, fd, a, request, env, now);
    var v2 := Receive(v1, fd, b, ack, env, now);
    assert evs[..2] == [evs[0], evs[1]] && evs[..2][..1] == [evs[0]] && [evs[0]][..0] == [];
    assert Run(listeners, [evs[0]][..0]) == v0;
    assert Run(listeners, [evs[0]]) == v1;
    assert Run(listeners, evs[..2]) == v2;
    LookupByKey([], fd, a);
    var c0 := NewClient(fd, a);
    NewClientKey(fd, a);
    FreshQueue(fd, a);
    DeliverOutput(c0, Input(request, env), now);
    RunsAreKeyed(listeners, [evs[0]]);
    var c1 := Deliver(c0, request, env, now);
    assert v1.clients == [c1];
    SameIdentityKey(c0, c1);
    LookupByKey(v1.clients, fd, b);
    assert ClientKey(v1.clients[0]) == KeyOf(fd, b);
    DeliverOutput(c1, Input(ack, env), now);
    var c2 := Deliver(c1, ack, env, now);
    assert v2.clients == [c2];
    TwoStepStream(request, ack, env, file, m);
    FlushOfOne(c2, v2.sockets);
    SentByHost(c2);
  }

  lemma TwoDatagramsFit(request: seq<Byte>, ack: seq<Byte>, env: Env, file: seq<Byte>, m: Mode)
    requires IsReadRequest(request, env, file, m) && IsAck(ack)
    ensures HeaderFits(true, request) && HeaderFits(true, ack)
  {
  }

  lemma FreshQueue(fd: int, a: Address)
    ensures NewClient(fd, a).queue == [] && NewClient(fd, a).ses == FreshSession && QueuedBytes([]) == []
    ensures NewClient(fd, a).s.fd == fd && NewClient(fd, a).s.addr == a
  {
  }

  lemma TwoStepStream(request: seq<Byte>, ack: seq<Byte>, env: Env, file: seq<Byte>, m: Mode)
    requires IsReadRequest(request, env, file, m) && IsAck(ack) && |request| <= PKTLEN && |ack| <= PKTLEN
    ensures var r := React(FreshSession, request, env);
      r.out + React(r.ses, ack, env).out == Stream(file, m, 1)
  {
    hide React, IsReadRequest, Serving, Stream;
    RequestFits(request, env, file, m);
    RequestOpens(request, env, file, m);
    AckSendsNextBlock(React(FreshSession, request, env).ses, ack, env, file, BlockSize(m), BlocksInOpening(m));
    StreamIsOpeningThenBlocks(file, m, 1);
    OneBlock(file, BlockSize(m), BlocksInOpening(m) + 1);
  }

  lemma OneBlock(file: seq<Byte>, b: nat, k: nat)
    requires k >= 1
    ensures DataPackets(file, b, k, 1) == [BlockPacket(file, b, k)]
  {
    hide BlockPacket;
  }

  lemma FlushOfOne(c: ClientState, sockets: seq<Socket>)
    ensures Flush([c], sockets).sent == SentBy(c)
  {
    hide SentBy, WithoutSocket;
    assert [c][1..] == [];
    assert Flush([c][1..], sockets).sent == [];
  }

  lemma SentByHost(c: ClientState)
    ensures SentBy(c) == SentToHost(c.s.fd, c.s.addr, QueuedBytes(c.queue))
  {
  }
}
