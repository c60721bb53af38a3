/** When FindSocket keeps returning the listener that was bound to a descriptor. */
module Listeners {
  import opened Bytes
  import opened Wire
  import opened Requests
  import opened Sessions
  import opened Clients
  import opened Servers
  import opened Pools

  /** The peers that may send: descriptor they reach, and address. */
  type Peers = set<(int, Address)>

  ghost predicate PeersOnly(evs: seq<Event>, peers: Peers) {
    forall i :: 0 <= i < |evs| && evs[i].Datagram? ==> (evs[i].fd, evs[i].addr) in peers
  }

  /** For every bound descriptor, FindSocket still returns the listener bound to it. */
  ghost predicate ListenersStay(listeners: seq<Socket>, evs: seq<Event>)
    requires AllSensible(evs)
  {
    var sockets := Run(listeners, evs).sockets;
    forall fd :: FindSocket(listeners, fd) != -1 ==>
      FindSocket(sockets, fd) != -1 && sockets[FindSocket(sockets, fd)] == listeners[FindSocket(listeners, fd)]
  }

  /** Some peer's address text equals the text of the listener it talks to. */
  ghost predicate Clash(listeners: seq<Socket>, peers: Peers) {
    exists p, i :: p in peers && 0 <= i < |listeners| && listeners[i].fd == p.0 && listeners[i].bindaddr == p.1.text
  }

  // ---------- Without a clash ----------

  /** No listener looks like this client's socket to DestroySocket. */
  ghost predicate Apart(listeners: seq<Socket>, s: Socket) {
    forall i :: 0 <= i < |listeners| ==> !SameEntry(listeners[i], s)
  }

  ghost predicate AllApart(listeners: seq<Socket>, cs: seq<ClientState>) {
    forall k :: 0 <= k < |cs| ==> Apart(listeners, cs[k].s)
  }

  /** The listeners still stand at the front of the pool. */
  ghost predicate InFront(listeners: seq<Socket>, sockets: seq<Socket>) {
    |listeners| <= |sockets| && sockets[..|listeners|] == listeners
  }

  lemma {:induction false} RemovalSparesListeners(listeners: seq<Socket>, sockets: seq<Socket>, s: Socket)
    requires Apart(listeners, s) && InFront(listeners, sockets)
    ensures InFront(listeners, WithoutSocket(sockets, s))
  {
    if listeners != [] {
      assert sockets[0] == sockets[..|listeners|][0] == listeners[0];
      assert sockets[1..][..|listeners| - 1] == sockets[..|listeners|][1..] == listeners[1..];
      assert forall i :: 0 <= i < |listeners[1..]| ==> listeners[1..][i] == listeners[i + 1];
      RemovalSparesListeners(listeners[1..], sockets[1..], s);
      var rest := WithoutSocket(sockets[1..], s);
      assert ([sockets[0]] + rest)[..|listeners|] == [listeners[0]] + rest[..|listeners| - 1];
    }
  }

  lemma {:induction false} FlushSparesListeners(listeners: seq<Socket>, cs: seq<ClientState>, sockets: seq<Socket>)
    requires AllApart(listeners, cs) && InFront(listeners, sockets)
    ensures InFront(listeners, Flush(cs, sockets).sockets)
    decreases |cs|
  {
    hide WithoutSocket, SentBy, Apart, InFront;
    if cs != [] {
      if !cs[0].ses.destroy {
        FlushSparesListeners(listeners, cs[1..], sockets);
      } else {
        RemovalSparesListeners(listeners, sockets, cs[0].s);
        if |cs| > 1 {
          FlushSparesListeners(listeners, cs[2..], WithoutSocket(sockets, cs[0].s));
        }
      }
    }
  }

  lemma {:induction false} CheckSparesListeners(listeners: seq<Socket>, cs: seq<ClientState>, sockets: seq<Socket>, clock: Clock, i: nat)
    requires AllApart(listeners, cs) && InFront(listeners, sockets)
    ensures InFront(listeners, Check(cs, sockets, clock, i).sockets)
    decreases |cs|
  {
    hide WithoutSocket, Apart, InFront, Resent;
    if cs != [] {
      if !(Expired(cs[0], clock(i)) && cs[0].ses.waiting >= 3) {
        CheckSparesListeners(listeners, cs[1..], sockets, clock, i + 1);
      } else {
        RemovalSparesListeners(listeners, sockets, cs[0].s);
        if |cs| > 1 {
          CheckSparesListeners(listeners, cs[2..], WithoutSocket(sockets, cs[0].s), clock, i + 1);
        }
      }
    }
  }

  lemma LeftOfKeepsApart(listeners: seq<Socket>, a: seq<ClientState>, b: seq<ClientState>)
    requires AllApart(listeners, a) && LeftOf(a, b)
    ensures AllApart(listeners, b)
  {
    hide LeftOf, Apart;
    forall k | 0 <= k < |b|
      ensures Apart(listeners, b[k].s)
    {
      LeftOfKeepsMembers(a, b, k);
      var j :| 0 <= j < |a| && a[j].s == b[k].s && a[j].tid == b[k].tid;
    }
  }

  lemma ReceiveSparesListeners(listeners: seq<Socket>, v: Srv, fd: int, addr: Address, d: seq<Byte>, env: Env, now: int)
    requires |d| <= PKTLEN && AllApart(listeners, v.clients) && InFront(listeners, v.sockets)
    requires Apart(listeners, Socket(fd, addr, addr.text))
    ensures var w := Receive(v, fd, addr, d, env, now); AllApart(listeners, w.clients) && InFront(listeners, w.sockets)
  {
    hide Deliver, FindClient, Apart;
    var (w, i) := Allocate(v, fd, addr);
    DeliverKeepsIdentity(w.clients[i], d, env, now);
  }

  lemma {:induction false} ListenersStayInFront(listeners: seq<Socket>, evs: seq<Event>, peers: Peers)
    requires AllSensible(evs) && PeersOnly(evs, peers) && !Clash(listeners, peers)
    ensures InFront(listeners, Run(listeners, evs).sockets) && AllApart(listeners, Run(listeners, evs).clients)
  {
    hide Receive, Flush, Check, InFront, AllApart;
    if evs == [] {
      NothingApart(listeners);
    } else {
      var before := evs[..|evs| - 1];
      var v, e := Run(listeners, before), evs[|evs| - 1];
      assert PeersOnly(before, peers);
      ListenersStayInFront(listeners, before, peers);
      match e
      case Datagram(fd, addr, d, env, now) =>
        assert (fd, addr) in peers;
        ReceiveSparesListeners(listeners, v, fd, addr, d, env, now);
      case SendPass =>
        FlushSparesListeners(listeners, v.clients, v.sockets);
        FlushLeaves(v.clients, v.sockets);
        LeftOfKeepsApart(listeners, v.clients, Flush(v.clients, v.sockets).kept);
      case CheckPass(clock) =>
        CheckSparesListeners(listeners, v.clients, v.sockets, clock, 0);
        CheckLeaves(v.clients, v.sockets, clock, 0);
        LeftOfKeepsApart(listeners, v.clients, Check(v.clients, v.sockets, clock, 0).kept);
    }
  }

  lemma NothingApart(listeners: seq<Socket>)
    ensures InFront(listeners, listeners) && AllApart(listeners, [])
  {
  }

  lemma {:induction false} FindInFront(listeners: seq<Socket>, sockets: seq<Socket>, fd: int)
    requires InFront(listeners, sockets) && FindSocket(listeners, fd) != -1
    ensures FindSocket(sockets, fd) == FindSocket(listeners, fd)
    ensures sockets[FindSocket(sockets, fd)] == listeners[FindSocket(listeners, fd)]
  {
    assert sockets[0] == sockets[..|listeners|][0] == listeners[0];
    if listeners[0].fd != fd {
      assert sockets[1..][..|listeners| - 1] == sockets[..|listeners|][1..] == listeners[1..];
      FindInFront(listeners[1..], sockets[1..], fd);
    }
  }

  lemma NoClashKeepsListeners(listeners: seq<Socket>, evs: seq<Event>, peers: Peers)
    requires AllSensible(evs) && PeersOnly(evs, peers) && !Clash(listeners, peers)
    ensures ListenersStay(listeners, evs)
  {
    hide Run, Clash, InFront;
    ListenersStayInFront(listeners, evs, peers);
    var sockets := Run(listeners, evs).sockets;
    forall fd | FindSocket(listeners, fd) != -1
      ensures FindSocket(sockets, fd) != -1 && sockets[FindSocket(sockets, fd)] == listeners[FindSocket(listeners, fd)]
    {
      FindInFront(listeners, sockets, fd);
    }
  }

  // ---------- With a clash ----------

  ghost predicate DistinctDescriptors(listeners: seq<Socket>) {
    forall i, j :: 0 <= i < j < |listeners| ==> listeners[i].fd != listeners[j].fd
  }

  /** A peer that reports an error is acknowledged and given up, and its entry removed on the next pass. */
  const Goodbye: seq<Byte> := [0, 5, 0, 0]

  lemma GoodbyeReaction(env: Env)
    ensures HeaderFits(true, Goodbye)
    ensures React(FreshSession, Goodbye, env).ses.destroy
  {
    assert Buffer(Goodbye)[0] == 0 && Buffer(Goodbye)[1] == 5;
  }

  lemma FirstRun(listeners: seq<Socket>, fd: int, addr: Address, env: Env)
    ensures var evs := [Datagram(fd, addr, Goodbye, env, 0), SendPass]; var c := Socket(fd, addr, addr.text);
      AllSensible(evs) && Run(listeners, evs).sockets == WithoutSocket(listeners + [c], c)
  {
    hide WithoutSocket, React, SentBy;
    GoodbyeReaction(env);
    var first := Datagram(fd, addr, Goodbye, env, 0);
    var evs := [first, SendPass];
    assert evs[..1] == [first] && [first][..0] == [];
    assert Run(listeners, [first][..0]) == Init(listeners);
    var v := Receive(Init(listeners), fd, addr, Goodbye, env, 0);
    assert Run(listeners, [first]) == v;
    var c := Deliver(NewClient(fd, addr), Goodbye, env, 0);
    assert v.clients == [c];
    DeliverKeepsIdentity(NewClient(fd, addr), Goodbye, env, 0);
    assert Run(listeners, evs) == Next(v, SendPass);
  }

  lemma ClashLosesListener(listeners: seq<Socket>, i: nat, addr: Address, env: Env)
    requires DistinctDescriptors(listeners) && i < |listeners|
    requires listeners[i].bindaddr == addr.text && listeners[i].addr != addr
    ensures var evs := [Datagram(listeners[i].fd, addr, Goodbye, env, 0), SendPass];
      AllSensible(evs) && !ListenersStay(listeners, evs)
  {
    var fd := listeners[i].fd;
    var c := Socket(fd, addr, addr.text);
    var pool := listeners + [c];
    FirstRun(listeners, fd, addr, env);
    WithoutSocketAt(pool, c, i);
    var sockets := WithoutSocket(pool, c);
    assert sockets == pool[..i] + pool[i + 1..];
    FindSocketFacts(listeners, fd);
    assert FindSocket(listeners, fd) == i;
    FindSocketFacts(sockets, fd);
    var at := FindSocket(sockets, fd);
    assert forall k :: 0 <= k < |sockets| - 1 ==> sockets[k].fd != fd by {
      forall k | 0 <= k < |sockets| - 1 ensures sockets[k].fd != fd {
        assert sockets[k] == listeners[if k < i then k else k + 1];
      }
    }
    assert sockets[|sockets| - 1] == c;
    hide Run, WithoutSocket;
    assert at == |sockets| - 1;
  }

  /** FindSocket keeps finding the listeners in all runs of these peers if and only if no peer's text clashes. */
  lemma ListenersStayIffNoClash(listeners: seq<Socket>, peers: Peers, env: Env)
    requires DistinctDescriptors(listeners)
    requires forall p, i :: p in peers && 0 <= i < |listeners| ==> listeners[i].addr != p.1
    ensures (forall evs :: AllSensible(evs) && PeersOnly(evs, peers) ==> ListenersStay(listeners, evs))
      <==> !Clash(listeners, peers)
  {
    hide ListenersStay, Run, Sensible;
    if Clash(listeners, peers) {
      var p, i :| p in peers && 0 <= i < |listeners| && listeners[i].fd == p.0 && listeners[i].bindaddr == p.1.text;
      ClashLosesListener(listeners, i, p.1, env);
      var evs := [Datagram(listeners[i].fd, p.1, Goodbye, env, 0), SendPass];
      assert AllSensible(evs) && PeersOnly(evs, peers) && !ListenersStay(listeners, evs);
    } else {
      forall evs | AllSensible(evs) && PeersOnly(evs, peers)
        ensures ListenersStay(listeners, evs)
      {
        NoClashKeepsListeners(listeners, evs, peers);
      }
    }
  }
}
