/**
 The two pools and the functions of src/client.c and src/socket.c that change them: lookup and
 allocation, receiving, the flush pass and the retry pass. The functions say what each pass does to the
 pools as values; the methods of class Server do it in place, loop by loop, and are proved to agree.
 */
module Servers {
  import opened Bytes
  import opened Wire
  import opened Requests
  import opened Sessions
  import opened Clients

  /** One sendto call. */
  datatype Sent = Sent(fd: int, addr: Address, bytes: seq<Byte>)

  /** clientpool, socketpool and everything sent so far. */
  datatype Srv = Srv(clients: seq<ClientState>, sockets: seq<Socket>, wire: seq<Sent>)

  // ---------- Lookup, allocation, removal ----------

  predicate Matches(c: ClientState, fd: int, addr: Address) {
    c.s.fd == fd && c.tid == -GetPort(addr)
  }

  /** FindClient: the first match, or -1. */
  function FindClient(cs: seq<ClientState>, fd: int, addr: Address): (i: int)
    ensures -1 <= i < |cs|
  {
    if cs == [] then -1
    else if Matches(cs[0], fd, addr) then 0
    else
      var i := FindClient(cs[1..], fd, addr);
      if i == -1 then -1 else i + 1
  }

  /** FindSocket: the first entry with the descriptor, or -1. */
  function FindSocket(ss: seq<Socket>, fd: int): (i: int)
    ensures -1 <= i < |ss|
  {
    if ss == [] then -1
    else if ss[0].fd == fd then 0
    else
      var i := FindSocket(ss[1..], fd);
      if i == -1 then -1 else i + 1
  }

  /** The comparison DestroySocket makes. */
  predicate SameEntry(a: Socket, b: Socket) {
    a.fd == b.fd && a.bindaddr == b.bindaddr
  }

  /** DestroySocket: drops the first entry with the same descriptor and address text. */
  function WithoutSocket(ss: seq<Socket>, s: Socket): seq<Socket> {
    if ss == [] then []
    else if SameEntry(ss[0], s) then ss[1..]
    else [ss[0]] + WithoutSocket(ss[1..], s)
  }

  /** FindOrAllocateClient: the pools afterwards; the client is at the returned index. */
  function Allocate(v: Srv, fd: int, addr: Address): (r: (Srv, nat))
    ensures r.1 < |r.0.clients|
  {
    var i := FindClient(v.clients, fd, addr);
    if i != -1 then (v, i)
    else
      var c := NewClient(fd, addr);
      (v.(clients := v.clients + [c], sockets := v.sockets + [c.s]), |v.clients|)
  }

  /** ReceivePackets. */
  function Receive(v: Srv, fd: int, addr: Address, d: seq<Byte>, env: Env, now: int): Srv
    requires |d| <= PKTLEN
  {
    var (w, i) := Allocate(v, fd, addr);
    w.(clients := w.clients[i := Deliver(w.clients[i], d, env, now)])
  }

  // ---------- The passes over the client pool ----------

  function SentBy(c: ClientState): seq<Sent> {
    seq(|c.queue|, i requires 0 <= i < |c.queue| => Sent(c.s.fd, c.s.addr, c.queue[i].bytes))
  }

  function Emptied(c: ClientState): ClientState {
    c.(queue := [])
  }

  /** What a pass leaves of the clients it ran over, of the socket pool, and what it sent. */
  datatype Pass = Pass(kept: seq<ClientState>, sockets: seq<Socket>, sent: seq<Sent>)

  /** SendPackets from one position on: a removal makes the loop step over the next client. */
  function Flush(rest: seq<ClientState>, sockets: seq<Socket>): Pass {
    if rest == [] then Pass([], sockets, [])
    else if rest[0].ses.destroy then
      var left := WithoutSocket(sockets, rest[0].s);
      if |rest| == 1 then Pass([], left, SentBy(rest[0]))
      else
        var r := Flush(rest[2..], left);
        Pass([rest[1]] + r.kept, r.sockets, SentBy(rest[0]) + r.sent)
    else
      var r := Flush(rest[1..], sockets);
      Pass([Emptied(rest[0])] + r.kept, r.sockets, SentBy(rest[0]) + r.sent)
  }

  /** What time(NULL) says to one iteration of the retry loop: when it checks, and when a resend is queued. */
  datatype Reading = Reading(checked: int, queued: int)

  /** The readings at each position the retry loop visits. */
  type Clock = nat -> Reading

  predicate Expired(c: ClientState, now: Reading) {
    c.ses.waiting != 0 && c.nextresend <= now.checked
  }

  /** One resend by CheckClients: count it and queue lastpacket again, marked 2. */
  function Resent(c: ClientState, now: Reading): ClientState {
    Enqueue(c.(ses := c.ses.(waiting := c.ses.waiting + 1)), c.ses.lastpacket.bytes, 2, now.queued)
  }

  /** CheckClients from position i on. */
  function Check(rest: seq<ClientState>, sockets: seq<Socket>, clock: Clock, i: nat): Pass
    decreases |rest|
  {
    if rest == [] then Pass([], sockets, [])
    else if Expired(rest[0], clock(i)) && rest[0].ses.waiting >= 3 then
      var left := WithoutSocket(sockets, rest[0].s);
      if |rest| == 1 then Pass([], left, [])
      else
        var r := Check(rest[2..], left, clock, i + 1);
        r.(kept := [rest[1]] + r.kept)
    else
      var r := Check(rest[1..], sockets, clock, i + 1);
      r.(kept := [if Expired(rest[0], clock(i)) then Resent(rest[0], clock(i)) else rest[0]] + r.kept)
  }

  // ---------- Runs ----------

  datatype Event =
    | Datagram(fd: int, addr: Address, d: seq<Byte>, env: Env, now: int)
    | SendPass
    | CheckPass(clock: Clock)

  /** Datagrams fit the receive buffer, and a DATA packet has a whole header. */
  predicate Sensible(e: Event) {
    e.Datagram? ==> HeaderFits(true, e.d)
  }

  predicate AllSensible(evs: seq<Event>) {
    forall i :: 0 <= i < |evs| ==> Sensible(evs[i])
  }

  function Next(v: Srv, e: Event): Srv
    requires Sensible(e)
  {
    match e
    case Datagram(fd, addr, d, env, now) => Receive(v, fd, addr, d, env, now)
    case SendPass =>
      var r := Flush(v.clients, v.sockets);
      Srv(r.kept, r.sockets, v.wire + r.sent)
    case CheckPass(clock) =>
      var r := Check(v.clients, v.sockets, clock, 0);
      Srv(r.kept, r.sockets, v.wire + r.sent)
  }

  /** The server that InitializeSockets leaves: its listeners bound, no client yet. */
  function Init(listeners: seq<Socket>): Srv {
    Srv([], listeners, [])
  }

  function Run(listeners: seq<Socket>, evs: seq<Event>): Srv
    requires AllSensible(evs)
  {
    if evs == [] then Init(listeners)
    else Next(Run(listeners, evs[..|evs| - 1]), evs[|evs| - 1])
  }

  // ---------- The server in place ----------

  lemma HeaderFitsAnyone(d: seq<Byte>)
    requires HeaderFits(true, d)
    ensures forall sendingfile :: HeaderFits(sendingfile, d)
  {
  }

  ghost function States(cs: seq<Client>): (r: seq<ClientState>)
    reads cs
    ensures |r| == |cs| && forall i :: 0 <= i < |cs| ==> r[i] == cs[i].State()
  {
    seq(|cs|, i requires 0 <= i < |cs| reads cs => cs[i].State())
  }

  ghost predicate Distinct(cs: seq<Client>) {
    forall i, j :: 0 <= i < j < |cs| ==> cs[i] != cs[j]
  }

  ghost function Objects(cs: seq<Client>): set<Client> {
    set c | c in cs
  }

  class Server {
    var clientpool: seq<Client>
    var socketpool: seq<Socket>
    ghost var wire: seq<Sent>

    ghost predicate Valid()
      reads this
    {
      Distinct(clientpool)
    }

    ghost function View(): Srv
      reads this, clientpool
    {
      Srv(States(clientpool), socketpool, wire)
    }

    constructor (listeners: seq<Socket>)
      ensures Valid() && View() == Init(listeners)
    {
      clientpool, socketpool, wire := [], listeners, [];
    }

    method LookUp(fd: int, addr: Address) returns (c: Client?)
      requires Valid()
      ensures var i := FindClient(States(clientpool), fd, addr);
        if i == -1 then c == null else c == clientpool[i]
    {
      var idx := 0;
      ghost var states := States(clientpool);
      while idx < |clientpool|
        invariant 0 <= idx <= |clientpool|
        invariant forall k :: 0 <= k < idx ==> !Matches(states[k], fd, addr)
      {
        if clientpool[idx].s.fd == fd {
          c := clientpool[idx];
          if c.tid == -GetPort(addr) {
            FindClientFirst(states, fd, addr, idx);
            return;
          }
        }
        idx := idx + 1;
      }
      FindClientNone(states, fd, addr);
      c := null;
    }

    /** FindSocket; s is meaningful when found. */
    method LookUpSocket(fd: int) returns (found: bool, i: nat)
      ensures found <==> FindSocket(socketpool, fd) != -1
      ensures found ==> i == FindSocket(socketpool, fd) && i < |socketpool|
    {
      i := 0;
      while i < |socketpool|
        invariant 0 <= i <= |socketpool|
        invariant forall k :: 0 <= k < i ==> socketpool[k].fd != fd
      {
        if socketpool[i].fd == fd {
          FindSocketFacts(socketpool, fd);
          return true, i;
        }
        i := i + 1;
      }
      FindSocketFacts(socketpool, fd);
      found := false;
    }

    method DestroySocket(s: Socket)
      modifies this`socketpool
      ensures socketpool == WithoutSocket(old(socketpool), s)
    {
      var idx := 0;
      while idx < |socketpool|
        invariant 0 <= idx <= |socketpool| && socketpool == old(socketpool)
        invariant forall k :: 0 <= k < idx ==> !SameEntry(socketpool[k], s)
      {
        if socketpool[idx].fd == s.fd && socketpool[idx].bindaddr == s.bindaddr {
          WithoutSocketAt(socketpool, s, idx);
          socketpool := socketpool[..idx] + socketpool[idx + 1..];
          return;
        }
        idx := idx + 1;
      }
      WithoutSocketNone(socketpool, s);
    }

    /** RemoveClient: the client's socket entry first, then the client itself by vec_remove. */
    method RemoveClient(c: Client, ghost at: nat)
      requires Valid() && at < |clientpool| && clientpool[at] == c
      modifies this`socketpool, this`clientpool
      ensures Valid()
      ensures clientpool == old(clientpool)[..at] + old(clientpool)[at + 1..]
      ensures socketpool == WithoutSocket(old(socketpool), c.s)
    {
      DestroySocket(c.s);
      var idx := 0;
      while idx < |clientpool| && clientpool[idx] != c
        invariant 0 <= idx <= at && clientpool == old(clientpool)
        invariant socketpool == WithoutSocket(old(socketpool), c.s)
      {
        idx := idx + 1;
      }
      clientpool := clientpool[..idx] + clientpool[idx + 1..];
    }

    method FindOrAllocateClient(fd: int, addr: Address) returns (c: Client)
      requires Valid()
      modifies this`clientpool, this`socketpool
      ensures Valid() && fresh(Objects(clientpool) - old(Objects(clientpool)))
      ensures var r := Allocate(old(View()), fd, addr); View() == r.0 && c == clientpool[r.1]
    {
      hide FindClient, NewClient;
      var found := LookUp(fd, addr);
      if found == null {
        c := new Client(fd, addr);
        socketpool := socketpool + [c.s];
        clientpool := clientpool + [c];
        assert States(clientpool) == old(States(clientpool)) + [c.State()];
      } else {
        c := found;
      }
    }

    /** memset and recvfrom: the datagram at the front of a zeroed buffer. */
    static method FillBuffer(d: seq<Byte>) returns (packet: array<Byte>)
      requires |d| <= PKTLEN
      ensures fresh(packet) && packet[..] == Buffer(d) && packet.Length == PKTLEN && packet[..|d|] == d
    {
      packet := new Byte[PKTLEN](_ => 0);
      var recvlen := Copy(packet, 0, d);
      assert packet[recvlen..] == Zeros(PKTLEN - recvlen);
      assert packet[..recvlen] == d;
      assert packet[..] == packet[..recvlen] + packet[recvlen..];
    }

    method ReceivePackets(fd: int, addr: Address, d: seq<Byte>, env: Env, now: int)
      requires Valid() && |d| <= PKTLEN && HeaderFits(true, d)
      modifies this`clientpool, this`socketpool, Objects(clientpool)
      ensures Valid() && fresh(Objects(clientpool) - old(Objects(clientpool)))
      ensures View() == Receive(old(View()), fd, addr, d, env, now)
    {
      hide Deliver, Buffer, FindClient, NewClient, HeaderFits;
      var packet := FillBuffer(d);
      ghost var at := Allocate(View(), fd, addr).1;
      var c := FindOrAllocateClient(fd, addr);
      Process(c, at, packet, |d|, env, now);
    }

    /** One client of the pool processes what is in the buffer. */
    method Process(c: Client, ghost at: nat, packet: array<Byte>, len: nat, env: Env, now: int)
      requires Valid() && at < |clientpool| && clientpool[at] == c
      requires len <= PKTLEN == packet.Length && packet[..] == Buffer(packet[..len]) && HeaderFits(true, packet[..len])
      modifies c
      ensures States(clientpool) == old(States(clientpool))[at := Deliver(old(c.State()), packet[..len], env, now)]
    {
      hide Deliver, Buffer, HeaderFits;
      HeaderFitsAnyone(packet[..len]);
      ghost var before := States(clientpool);
      c.ProcessPacket(packet, len, env, now);
      assert States(clientpool) == before[at := c.State()];
    }

    /** The inner loop of SendPackets: the whole queue, in order, then vec_clear. */
    method FlushOne(c: Client)
      modifies this`wire, c`packetqueue
      ensures c.State() == Emptied(old(c.State()))
      ensures wire == old(wire) + SentBy(old(c.State()))
    {
      var idx := 0;
      ghost var all := SentBy(c.State());
      while idx < |c.packetqueue|
        invariant 0 <= idx <= |c.packetqueue| && c.State() == old(c.State())
        invariant wire == old(wire) + all[..idx]
      {
        assert all[..idx + 1] == all[..idx] + [all[idx]];
        wire := wire + [Sent(c.s.fd, c.s.addr, c.packetqueue[idx].bytes)];
        idx := idx + 1;
      }
      assert all[..idx] == all;
      c.packetqueue := [];
    }

    /** The body of the loop in SendPackets. */
    method VisitToSend(cidx: nat)
      requires Valid() && cidx < |clientpool|
      modifies this, Objects(clientpool)
      ensures Valid() && Objects(clientpool) <= old(Objects(clientpool))
      ensures View() == SendVisit(old(View()), cidx)
    {
      hide SentBy, WithoutSocket;
      var c := clientpool[cidx];
      assert c in clientpool;
      ghost var before := States(clientpool);
      FlushOne(c);
      assert States(clientpool) == before[cidx := Emptied(before[cidx])];
      if c.destroy {
        RemoveClient(c, cidx);
        assert States(clientpool) == before[..cidx] + before[cidx + 1..];
      }
    }

    method SendPackets()
      requires Valid()
      modifies this, Objects(clientpool)
      ensures Valid() && Objects(clientpool) <= old(Objects(clientpool))
      ensures var r := Flush(old(States(clientpool)), old(socketpool));
        View() == Srv(r.kept, r.sockets, old(wire) + r.sent)
    {
      hide Flush, SendVisit, States, FlushedUpTo;
      ghost var whole := Flush(States(clientpool), socketpool);
      var cidx := 0;
      FlushStarts(View());
      while cidx < |clientpool|
        invariant 0 <= cidx && Valid()
        invariant Objects(clientpool) <= old(Objects(clientpool))
        invariant FlushedUpTo(whole, old(wire), View(), cidx)
        decreases |clientpool| - cidx
      {
        FlushStep(whole, old(wire), View(), cidx);
        VisitToSend(cidx);
        cidx := cidx + 1;
      }
      FlushDone(whole, old(wire), View(), cidx);
    }

    /** The body of the loop in CheckClients. */
    method VisitToCheck(i: nat, now: Reading)
      requires Valid() && i < |clientpool|
      modifies this`clientpool, this`socketpool, Objects(clientpool)
      ensures Valid() && Objects(clientpool) <= old(Objects(clientpool))
      ensures View() == CheckVisit(old(View()), i, now)
    {
      hide WithoutSocket;
      var c := clientpool[i];
      assert c in clientpool;
      ghost var before := States(clientpool);
      if c.waiting != 0 && c.nextresend <= now.checked {
        var count := c.waiting;
        c.waiting := c.waiting + 1;
        if count >= 3 {
          RemoveClient(c, i);
          assert States(clientpool) == before[..i] + before[i + 1..];
        } else {
          c.QueuePacket(c.lastpacket.bytes, 2, now.queued);
          assert States(clientpool) == before[i := Resent(before[i], now)];
        }
      }
    }

    method CheckClients(clock: Clock)
      requires Valid()
      modifies this`clientpool, this`socketpool, Objects(clientpool)
      ensures Valid() && Objects(clientpool) <= old(Objects(clientpool))
      ensures var r := Check(old(States(clientpool)), old(socketpool), clock, 0);
        View() == Srv(r.kept, r.sockets, old(wire) + r.sent)
    {
      hide Check, CheckVisit, States, CheckedUpTo;
      ghost var whole := Check(States(clientpool), socketpool, clock, 0);
      var i := 0;
      CheckStarts(View(), clock);
      while i < |clientpool|
        invariant 0 <= i && Valid()
        invariant Objects(clientpool) <= old(Objects(clientpool))
        invariant CheckedUpTo(whole, old(wire), View(), i, clock)
        decreases |clientpool| - i
      {
        CheckStep(whole, old(wire), View(), i, clock);
        VisitToCheck(i, clock(i));
        i := i + 1;
      }
      CheckDone(whole, old(wire), View(), i, clock);
    }
  }

  // ---------- How far a pass has come ----------

  /** What one visit of the flush pass does to the pools. */
  function SendVisit(v: Srv, i: nat): (w: Srv)
    requires i < |v.clients|
    ensures |w.clients| <= |v.clients|
  {
    var c := v.clients[i];
    if c.ses.destroy then Srv(v.clients[..i] + v.clients[i + 1..], WithoutSocket(v.sockets, c.s), v.wire + SentBy(c))
    else Srv(v.clients[i := Emptied(c)], v.sockets, v.wire + SentBy(c))
  }

  /** A pass with full effect `whole`, begun with `wire` sent, is at position i with the pools in `v`. */
  ghost predicate FlushedUpTo(whole: Pass, wire: seq<Sent>, v: Srv, i: nat) {
    var at := Min(i, |v.clients|);
    var rest := Flush(v.clients[at..], v.sockets);
    && whole.kept == v.clients[..at] + rest.kept
    && whole.sockets == rest.sockets
    && wire + whole.sent == v.wire + rest.sent
  }

  lemma FlushStarts(v: Srv)
    ensures FlushedUpTo(Flush(v.clients, v.sockets), v.wire, v, 0)
  {
    hide Flush;
    assert v.clients[0..] == v.clients;
  }

  lemma FlushStep(whole: Pass, wire: seq<Sent>, v: Srv, i: nat)
    requires i < |v.clients| && FlushedUpTo(whole, wire, v, i)
    ensures FlushedUpTo(whole, wire, SendVisit(v, i), i + 1)
  {
    if v.clients[i].ses.destroy {
      FlushStepRemoved(whole, wire, v, i);
    } else {
      FlushStepKept(whole, wire, v, i);
    }
  }

  /** A removed client: the loop goes on behind its successor. */
  lemma FlushStepRemoved(whole: Pass, wire: seq<Sent>, v: Srv, i: nat)
    requires i < |v.clients| && v.clients[i].ses.destroy && FlushedUpTo(whole, wire, v, i)
    ensures FlushedUpTo(whole, wire, SendVisit(v, i), i + 1)
  {
    hide SentBy, WithoutSocket;
    var cs, c := v.clients, v.clients[i];
    var rest := cs[i..];
    var left := WithoutSocket(v.sockets, c.s);
    var cs' := cs[..i] + cs[i + 1..];
    if |rest| == 1 {
      assert cs' == cs[..i];
      assert cs'[..|cs'|] == cs' && cs'[|cs'|..] == [];
      assert Flush([], left) == Pass([], left, []);
      assert Flush(rest, v.sockets).sent == SentBy(c);
    } else {
      var r := Flush(rest[2..], left);
      assert cs'[i + 1..] == rest[2..];
      assert cs'[..i + 1] == cs[..i] + [rest[1]];
      assert Flush(rest, v.sockets) == Pass([rest[1]] + r.kept, r.sockets, SentBy(c) + r.sent);
      assert v.wire + (SentBy(c) + r.sent) == (v.wire + SentBy(c)) + r.sent;
      assert cs[..i] + ([rest[1]] + r.kept) == cs'[..i + 1] + r.kept;
    }
  }

  lemma FlushStepKept(whole: Pass, wire: seq<Sent>, v: Srv, i: nat)
    requires i < |v.clients| && !v.clients[i].ses.destroy && FlushedUpTo(whole, wire, v, i)
    ensures FlushedUpTo(whole, wire, SendVisit(v, i), i + 1)
  {
    hide SentBy, Emptied;
    var cs, c := v.clients, v.clients[i];
    var rest := cs[i..];
    var r := Flush(rest[1..], v.sockets);
    assert Flush(rest, v.sockets) == Pass([Emptied(c)] + r.kept, r.sockets, SentBy(c) + r.sent);
    var cs' := cs[i := Emptied(c)];
    assert cs'[i + 1..] == rest[1..];
    assert cs'[..i + 1] == cs[..i] + [Emptied(c)];
    assert v.wire + (SentBy(c) + r.sent) == (v.wire + SentBy(c)) + r.sent;
    assert cs[..i] + ([Emptied(c)] + r.kept) == cs'[..i + 1] + r.kept;
  }

  lemma FlushDone(whole: Pass, wire: seq<Sent>, v: Srv, i: nat)
    requires |v.clients| <= i && FlushedUpTo(whole, wire, v, i)
    ensures v == Srv(whole.kept, whole.sockets, wire + whole.sent)
  {
    assert v.clients[..|v.clients|] == v.clients;
  }

  /** What one visit of the retry pass does. */
  function CheckVisit(v: Srv, i: nat, now: Reading): (w: Srv)
    requires i < |v.clients|
    ensures |w.clients| <= |v.clients|
  {
    var c := v.clients[i];
    if Expired(c, now) then
      if c.ses.waiting >= 3 then v.(clients := v.clients[..i] + v.clients[i + 1..], sockets := WithoutSocket(v.sockets, c.s))
      else v.(clients := v.clients[i := Resent(c, now)])
    else v
  }

  ghost predicate CheckedUpTo(whole: Pass, wire: seq<Sent>, v: Srv, i: nat, clock: Clock) {
    var at := Min(i, |v.clients|);
    var rest := Check(v.clients[at..], v.sockets, clock, i);
    && whole.kept == v.clients[..at] + rest.kept
    && whole.sockets == rest.sockets
    && wire + whole.sent == v.wire + rest.sent
  }

  lemma CheckStarts(v: Srv, clock: Clock)
    ensures CheckedUpTo(Check(v.clients, v.sockets, clock, 0), v.wire, v, 0, clock)
  {
    hide Check;
    assert v.clients[0..] == v.clients;
  }

  lemma CheckStep(whole: Pass, wire: seq<Sent>, v: Srv, i: nat, clock: Clock)
    requires i < |v.clients| && CheckedUpTo(whole, wire, v, i, clock)
    ensures CheckedUpTo(whole, wire, CheckVisit(v, i, clock(i)), i + 1, clock)
  {
    if Expired(v.clients[i], clock(i)) && v.clients[i].ses.waiting >= 3 {
      CheckStepRemoved(whole, wire, v, i, clock);
    } else {
      CheckStepKept(whole, wire, v, i, clock);
    }
  }

  lemma CheckStepRemoved(whole: Pass, wire: seq<Sent>, v: Srv, i: nat, clock: Clock)
    requires i < |v.clients| && CheckedUpTo(whole, wire, v, i, clock)
    requires Expired(v.clients[i], clock(i)) && v.clients[i].ses.waiting >= 3
    ensures CheckedUpTo(whole, wire, CheckVisit(v, i, clock(i)), i + 1, clock)
  {
    hide Resent, Expired, WithoutSocket;
    var cs, c := v.clients, v.clients[i];
    var rest := cs[i..];
    var left := WithoutSocket(v.sockets, c.s);
    var cs' := cs[..i] + cs[i + 1..];
    if |rest| == 1 {
      assert cs' == cs[..i];
      assert cs'[..|cs'|] == cs' && cs'[|cs'|..] == [];
      assert Check([], left, clock, i + 1) == Pass([], left, []);
    } else {
      var r := Check(rest[2..], left, clock, i + 1);
      assert cs'[i + 1..] == rest[2..];
      assert cs'[..i + 1] == cs[..i] + [rest[1]];
      assert Check(rest, v.sockets, clock, i) == r.(kept := [rest[1]] + r.kept);
      assert cs[..i] + ([rest[1]] + r.kept) == cs'[..i + 1] + r.kept;
    }
  }

  lemma CheckStepKept(whole: Pass, wire: seq<Sent>, v: Srv, i: nat, clock: Clock)
    requires i < |v.clients| && CheckedUpTo(whole, wire, v, i, clock)
    requires !(Expired(v.clients[i], clock(i)) && v.clients[i].ses.waiting >= 3)
    ensures CheckedUpTo(whole, wire, CheckVisit(v, i, clock(i)), i + 1, clock)
  {
    hide Resent, Expired;
    var cs, c := v.clients, v.clients[i];
    var rest := cs[i..];
    var c' := if Expired(c, clock(i)) then Resent(c, clock(i)) else c;
    var r := Check(rest[1..], v.sockets, clock, i + 1);
    assert Check(rest, v.sockets, clock, i) == r.(kept := [c'] + r.kept);
    var cs' := cs[i := c'];
    assert cs'[i + 1..] == rest[1..];
    assert cs'[..i + 1] == cs[..i] + [c'];
    assert cs[..i] + ([c'] + r.kept) == cs'[..i + 1] + r.kept;
    assert CheckVisit(v, i, clock(i)).clients == cs';
  }

  lemma CheckDone(whole: Pass, wire: seq<Sent>, v: Srv, i: nat, clock: Clock)
    requires |v.clients| <= i && CheckedUpTo(whole, wire, v, i, clock)
    ensures v == Srv(whole.kept, whole.sockets, wire + whole.sent)
  {
    assert v.clients[..|v.clients|] == v.clients;
  }

  // ---------- First matches ----------

  lemma {:induction false} FindClientFacts(cs: seq<ClientState>, fd: int, addr: Address)
    ensures var i := FindClient(cs, fd, addr);
      && (i == -1 ==> forall k :: 0 <= k < |cs| ==> !Matches(cs[k], fd, addr))
      && (i != -1 ==> Matches(cs[i], fd, addr) && forall k :: 0 <= k < i ==> !Matches(cs[k], fd, addr))
  {
    hide Matches;
    if cs != [] && !Matches(cs[0], fd, addr) {
      FindClientFacts(cs[1..], fd, addr);
      assert forall k :: 1 <= k < |cs| ==> cs[k] == cs[1..][k - 1];
    }
  }

  lemma FindClientFirst(cs: seq<ClientState>, fd: int, addr: Address, i: nat)
    requires i < |cs| && Matches(cs[i], fd, addr) && forall k :: 0 <= k < i ==> !Matches(cs[k], fd, addr)
    ensures FindClient(cs, fd, addr) == i
  {
    hide Matches;
    FindClientFacts(cs, fd, addr);
  }

  lemma FindClientNone(cs: seq<ClientState>, fd: int, addr: Address)
    requires forall k :: 0 <= k < |cs| ==> !Matches(cs[k], fd, addr)
    ensures FindClient(cs, fd, addr) == -1
  {
    hide Matches;
    FindClientFacts(cs, fd, addr);
  }

  lemma {:induction false} FindSocketFacts(ss: seq<Socket>, fd: int)
    ensures var i := FindSocket(ss, fd);
      && (i == -1 ==> forall k :: 0 <= k < |ss| ==> ss[k].fd != fd)
      && (i != -1 ==> ss[i].fd == fd && forall k :: 0 <= k < i ==> ss[k].fd != fd)
  {
    if ss != [] && ss[0].fd != fd {
      FindSocketFacts(ss[1..], fd);
      assert forall k :: 1 <= k < |ss| ==> ss[k] == ss[1..][k - 1];
    }
  }

  lemma {:induction false} WithoutSocketAt(ss: seq<Socket>, s: Socket, i: nat)
    requires i < |ss| && SameEntry(ss[i], s) && forall k :: 0 <= k < i ==> !SameEntry(ss[k], s)
    ensures WithoutSocket(ss, s) == ss[..i] + ss[i + 1..]
  {
    if i > 0 {
      assert !SameEntry(ss[0], s);
      assert forall k :: 0 <= k < i - 1 ==> ss[1..][k] == ss[k + 1];
      WithoutSocketAt(ss[1..], s, i - 1);
      assert ss[..i] == [ss[0]] + ss[1..][..i - 1];
    }
  }

  lemma {:induction false} WithoutSocketNone(ss: seq<Socket>, s: Socket)
    requires forall k :: 0 <= k < |ss| ==> !SameEntry(ss[k], s)
    ensures WithoutSocket(ss, s) == ss
  {
    if ss != [] {
      assert !SameEntry(ss[0], s);
      assert forall k :: 1 <= k < |ss| ==> ss[k] == ss[1..][k - 1];
      WithoutSocketNone(ss[1..], s);
    }
  }
}
