/** The client pool as an index keyed by descriptor and port, and its agreement with the socket pool, in every run. */
module Pools {
  import opened Bytes
  import opened Requests
  import opened Sessions
  import opened Clients
  import opened Servers

  // ---------- Keys ----------

  /** What FindClient can tell peers apart by: the descriptor and the port field of the address, of either family. */
  datatype Key = Key(fd: int, port: U16)

  function KeyOf(fd: int, addr: Address): Key {
    Key(fd, match addr.family case Inet => addr.port case Inet6 => addr.port case OtherFamily => 65535)
  }

  /** Keys are equal for the same descriptor and the same port, and in no other case. */
  lemma KeysTellPortsApart(fd: int, a: Address, fd': int, b: Address)
    ensures KeyOf(fd, a) == KeyOf(fd', b) <==> fd == fd' && SamePort(a, b)
    ensures a.family != OtherFamily ==> KeyOf(fd, a).port == a.port
  {
  }

  function ClientKey(c: ClientState): Key {
    KeyOf(c.s.fd, c.s.addr)
  }

  /** Port 32768: the one port whose negation does not fit the stored transfer ID. */
  const LOST_PORT: U16 := 32768

  /** A client as AddClient made it, with the transfer ID of its own address. */
  ghost predicate WellMade(c: ClientState) {
    c.tid == TidOf(c.s.addr) && c.s.bindaddr == c.s.addr.text
  }

  /** No two clients share a key, except clients of port 32768. */
  ghost predicate Keyed(cs: seq<ClientState>) {
    && (forall i :: 0 <= i < |cs| ==> WellMade(cs[i]))
    && forall i, j :: 0 <= i < j < |cs| ==> ClientKey(cs[i]) != ClientKey(cs[j]) || ClientKey(cs[i]).port == LOST_PORT
  }

  lemma MatchesIsSameKey(c: ClientState, fd: int, addr: Address)
    requires WellMade(c)
    ensures Matches(c, fd, addr) <==> ClientKey(c) == KeyOf(fd, addr) && KeyOf(fd, addr).port != LOST_PORT
  {
  }

  /** Lookup is exact: it finds the client of the key when there is one, and port 32768 never. */
  lemma LookupByKey(cs: seq<ClientState>, fd: int, addr: Address)
    requires Keyed(cs)
    ensures var i := FindClient(cs, fd, addr);
      && (i != -1 ==> ClientKey(cs[i]) == KeyOf(fd, addr))
      && (i != -1 <==> KeyOf(fd, addr).port != LOST_PORT && exists k :: 0 <= k < |cs| && ClientKey(cs[k]) == KeyOf(fd, addr))
      && (forall k :: 0 <= k < |cs| && ClientKey(cs[k]) == KeyOf(fd, addr) && KeyOf(fd, addr).port != LOST_PORT ==> i == k)
  {
    hide Matches, KeyOf;
    FindClientFacts(cs, fd, addr);
    forall k | 0 <= k < |cs|
      ensures Matches(cs[k], fd, addr) <==> ClientKey(cs[k]) == KeyOf(fd, addr) && KeyOf(fd, addr).port != LOST_PORT
    {
      MatchesIsSameKey(cs[k], fd, addr);
    }
    var i := FindClient(cs, fd, addr);
    if i != -1 {
      forall k | 0 <= k < |cs| && ClientKey(cs[k]) == KeyOf(fd, addr)
        ensures i == k
      {
        assert ClientKey(cs[i]) == ClientKey(cs[k]);
      }
    }
  }

  /** The address has a port that a session can live on. */
  predicate HasSession(a: Address) {
    a.family == OtherFamily || a.port != 32768
  }

  /** Lookup is exact, in terms of descriptors and port fields alone; port 32768 is never found. */
  lemma LookupIsExact(cs: seq<ClientState>, fd: int, addr: Address)
    requires Keyed(cs)
    ensures var i := FindClient(cs, fd, addr);
      && (i != -1 <==> HasSession(addr) && exists k :: 0 <= k < |cs| && cs[k].s.fd == fd && SamePort(cs[k].s.addr, addr))
      && (i != -1 ==> cs[i].s.fd == fd && SamePort(cs[i].s.addr, addr))
      && (forall k :: 0 <= k < |cs| && cs[k].s.fd == fd && SamePort(cs[k].s.addr, addr) && HasSession(addr) ==> i == k)
  {
    hide Matches, KeyOf, SamePort;
    LookupByKey(cs, fd, addr);
    LostPortOnly(fd, addr);
    forall k | 0 <= k < |cs|
      ensures ClientKey(cs[k]) == KeyOf(fd, addr) <==> cs[k].s.fd == fd && SamePort(cs[k].s.addr, addr)
    {
      KeysTellPortsApart(cs[k].s.fd, cs[k].s.addr, fd, addr);
    }
  }

  lemma LostPortOnly(fd: int, addr: Address)
    ensures KeyOf(fd, addr).port != LOST_PORT <==> HasSession(addr)
  {
  }

  /**
   A datagram touches one client and no other: the one found, in its place, or a new one behind all
   others, with its socket behind all others too.
   */
  lemma ReceiveTouchesOneClient(v: Srv, fd: int, addr: Address, d: seq<Byte>, env: Env, now: int)
    requires Keyed(v.clients) && |d| <= PKTLEN
    ensures var w := Receive(v, fd, addr, d, env, now); var i := FindClient(v.clients, fd, addr);
      && w.wire == v.wire
      && if i == -1 then
           && |w.clients| == |v.clients| + 1 && w.clients[..|v.clients|] == v.clients
           && w.clients[|v.clients|].s == Socket(fd, addr, addr.text)
           && w.clients[|v.clients|].ses == React(FreshSession, d, env).ses
           && w.sockets == v.sockets + [Socket(fd, addr, addr.text)]
         else
           && |w.clients| == |v.clients| && w.clients[..i] == v.clients[..i] && w.clients[i + 1..] == v.clients[i + 1..]
           && w.clients[i].s == v.clients[i].s && w.clients[i].ses == React(v.clients[i].ses, d, env).ses
           && w.sockets == v.sockets
  {
    hide React, FindClient;
    var (w, i) := Allocate(v, fd, addr);
    DeliverKeepsIdentity(w.clients[i], d, env, now);
  }

  /** Two IPv4 or IPv6 peers of one descriptor are served by one client if and only if they have one port, 32768 aside. */
  lemma PeersMeetIffPortsEqual(v: Srv, fd: int, a: Address, b: Address, d: seq<Byte>, env: Env, now: int)
    requires Keyed(v.clients) && |d| <= PKTLEN && a.family != OtherFamily && b.family != OtherFamily
    ensures Allocate(Receive(v, fd, a, d, env, now), fd, b).1 == Allocate(v, fd, a).1 <==> a.port == b.port && a.port != 32768
  {
    hide Deliver, FindClient, NewClient, KeyOf, ClientKey;
    var i := Allocate(v, fd, a).1;
    var cs := Allocate(v, fd, a).0.clients;
    var w := Receive(v, fd, a, d, env, now);
    ReceiveKeepsKeyed(v, fd, a, d, env, now);
    LookupByKey(v.clients, fd, a);
    NewClientKey(fd, a);
    DeliverKeepsIdentity(cs[i], d, env, now);
    SameIdentityKey(cs[i], w.clients[i]);
    LookupByKey(w.clients, fd, b);
    KeysTellPortsApart(fd, a, fd, b);
    LostPortOnly(fd, a);
  }

  lemma SameIdentityKey(c: ClientState, c': ClientState)
    requires c'.s == c.s
    ensures ClientKey(c') == ClientKey(c)
  {
  }

  // ---------- The invariant through every step ----------

  lemma DeliverKeepsIdentity(c: ClientState, d: seq<Byte>, env: Env, now: int)
    requires |d| <= PKTLEN
    ensures Deliver(c, d, env, now).s == c.s && Deliver(c, d, env, now).tid == c.tid
  {
    hide React;
    EnqueueAllAppends(c, React(c.ses, d, env).out, now);
  }

  lemma ReceiveKeepsKeyed(v: Srv, fd: int, addr: Address, d: seq<Byte>, env: Env, now: int)
    requires |d| <= PKTLEN && Keyed(v.clients)
    ensures Keyed(Receive(v, fd, addr, d, env, now).clients)
  {
    hide Deliver, FindClient, NewClient, ClientKey, KeyOf;
    var (w, i) := Allocate(v, fd, addr);
    LookupByKey(v.clients, fd, addr);
    NewClientKey(fd, addr);
    assert Keyed(w.clients);
    DeliverKeepsIdentity(w.clients[i], d, env, now);
    var cs := w.clients[i := Deliver(w.clients[i], d, env, now)];
    forall k | 0 <= k < |cs|
      ensures WellMade(cs[k]) && ClientKey(cs[k]) == ClientKey(w.clients[k])
    {
      SameIdentity(w.clients[k], cs[k]);
    }
  }

  lemma SameIdentity(c: ClientState, c': ClientState)
    requires c'.s == c.s && c'.tid == c.tid && WellMade(c)
    ensures WellMade(c') && ClientKey(c') == ClientKey(c)
  {
  }

  lemma NewClientKey(fd: int, addr: Address)
    ensures WellMade(NewClient(fd, addr)) && ClientKey(NewClient(fd, addr)) == KeyOf(fd, addr)
    ensures NewClient(fd, addr).queue == [] && NewClient(fd, addr).capacity == 0 && NewClient(fd, addr).nextresend == 0
  {
  }

  /** `b` is what is left of `a`: some clients dropped, the others in order, with their identity. */
  ghost predicate LeftOf(a: seq<ClientState>, b: seq<ClientState>) {
    if b == [] then true
    else a != [] && ((b[0].s == a[0].s && b[0].tid == a[0].tid && LeftOf(a[1..], b[1..])) || LeftOf(a[1..], b))
  }

  lemma {:induction false} LeftOfKeepsMembers(a: seq<ClientState>, b: seq<ClientState>, i: nat)
    requires LeftOf(a, b) && i < |b|
    ensures exists k :: 0 <= k < |a| && a[k].s == b[i].s && a[k].tid == b[i].tid
    decreases |a|
  {
    if b[0].s == a[0].s && b[0].tid == a[0].tid && LeftOf(a[1..], b[1..]) {
      if i > 0 {
        LeftOfKeepsMembers(a[1..], b[1..], i - 1);
        var k :| 0 <= k < |a[1..]| && a[1..][k].s == b[1..][i - 1].s && a[1..][k].tid == b[1..][i - 1].tid;
        assert a[k + 1] == a[1..][k];
      }
    } else {
      LeftOfKeepsMembers(a[1..], b, i);
      var k :| 0 <= k < |a[1..]| && a[1..][k].s == b[i].s && a[1..][k].tid == b[i].tid;
      assert a[k + 1] == a[1..][k];
    }
  }

  lemma KeyedTail(cs: seq<ClientState>)
    requires Keyed(cs) && cs != []
    ensures Keyed(cs[1..])
    ensures forall k :: 0 <= k < |cs[1..]| ==> ClientKey(cs[1..][k]) != ClientKey(cs[0]) || ClientKey(cs[0]).port == LOST_PORT
  {
    hide ClientKey, WellMade;
  }

  lemma {:induction false} LeftOfKeepsKeyed(a: seq<ClientState>, b: seq<ClientState>)
    requires Keyed(a) && LeftOf(a, b)
    ensures Keyed(b)
    decreases |a|
  {
    if b != [] {
      KeyedTail(a);
      if b[0].s == a[0].s && b[0].tid == a[0].tid && LeftOf(a[1..], b[1..]) {
        LeftOfKeepsKeyed(a[1..], b[1..]);
        SameIdentity(a[0], b[0]);
        forall j | 1 <= j < |b|
          ensures WellMade(b[j]) && (ClientKey(b[0]) != ClientKey(b[j]) || ClientKey(b[0]).port == LOST_PORT)
        {
          LeftOfKeepsMembers(a[1..], b[1..], j - 1);
          var k :| 0 <= k < |a[1..]| && a[1..][k].s == b[1..][j - 1].s && a[1..][k].tid == b[1..][j - 1].tid;
          SameIdentity(a[1..][k], b[j]);
        }
        KeyedCons(b);
      } else {
        LeftOfKeepsKeyed(a[1..], b);
      }
    }
  }

  lemma KeyedCons(cs: seq<ClientState>)
    requires cs != [] && WellMade(cs[0]) && Keyed(cs[1..])
    requires forall j :: 1 <= j < |cs| ==> ClientKey(cs[0]) != ClientKey(cs[j]) || ClientKey(cs[0]).port == LOST_PORT
    ensures Keyed(cs)
  {
    hide ClientKey, WellMade;
    assert forall j :: 1 <= j < |cs| ==> cs[j] == cs[1..][j - 1];
  }

  lemma {:induction false} FlushLeaves(cs: seq<ClientState>, sockets: seq<Socket>)
    ensures LeftOf(cs, Flush(cs, sockets).kept)
    decreases |cs|
  {
    hide WithoutSocket, SentBy;
    if cs == [] {
    } else if !cs[0].ses.destroy {
      FlushLeaves(cs[1..], sockets);
      LeftOfCons(cs, Emptied(cs[0]), Flush(cs[1..], sockets).kept);
    } else if |cs| > 1 {
      var left := WithoutSocket(sockets, cs[0].s);
      FlushLeaves(cs[2..], left);
      assert cs[1..][1..] == cs[2..];
      LeftOfCons(cs[1..], cs[1], Flush(cs[2..], left).kept);
      LeftOfSkip(cs, [cs[1]] + Flush(cs[2..], left).kept);
    }
  }

  lemma LeftOfCons(a: seq<ClientState>, c: ClientState, b: seq<ClientState>)
    requires a != [] && c.s == a[0].s && c.tid == a[0].tid && LeftOf(a[1..], b)
    ensures LeftOf(a, [c] + b)
  {
    assert ([c] + b)[1..] == b;
  }

  lemma LeftOfSkip(a: seq<ClientState>, b: seq<ClientState>)
    requires a != [] && LeftOf(a[1..], b)
    ensures LeftOf(a, b)
  {
  }

  lemma {:induction false} CheckLeaves(cs: seq<ClientState>, sockets: seq<Socket>, clock: Clock, i: nat)
    ensures LeftOf(cs, Check(cs, sockets, clock, i).kept) && Check(cs, sockets, clock, i).sent == []
    decreases |cs|
  {
    hide WithoutSocket;
    if cs == [] {
    } else if Expired(cs[0], clock(i)) && cs[0].ses.waiting >= 3 {
      var left := WithoutSocket(sockets, cs[0].s);
      if |cs| > 1 {
        CheckLeaves(cs[2..], left, clock, i + 1);
        assert cs[1..][1..] == cs[2..];
        LeftOfCons(cs[1..], cs[1], Check(cs[2..], left, clock, i + 1).kept);
        LeftOfSkip(cs, [cs[1]] + Check(cs[2..], left, clock, i + 1).kept);
      }
    } else {
      CheckLeaves(cs[1..], sockets, clock, i + 1);
      LeftOfCons(cs, if Expired(cs[0], clock(i)) then Resent(cs[0], clock(i)) else cs[0], Check(cs[1..], sockets, clock, i + 1).kept);
    }
  }

  /** In every run, the client pool is a correctly keyed index. */
  lemma {:induction false} RunsAreKeyed(listeners: seq<Socket>, evs: seq<Event>)
    requires AllSensible(evs)
    ensures Keyed(Run(listeners, evs).clients)
    ensures var cs := Run(listeners, evs).clients;
      forall i, j :: 0 <= i < j < |cs| && cs[i].s.fd == cs[j].s.fd && SamePort(cs[i].s.addr, cs[j].s.addr) ==>
        cs[i].s.addr.port == 32768 && cs[j].s.addr.port == 32768
  {
    hide Receive, Flush, Check;
    if evs != [] {
      var v, e := Run(listeners, evs[..|evs| - 1]), evs[|evs| - 1];
      RunsAreKeyed(listeners, evs[..|evs| - 1]);
      match e
      case Datagram(fd, addr, d, env, now) => ReceiveKeepsKeyed(v, fd, addr, d, env, now);
      case SendPass =>
        FlushLeaves(v.clients, v.sockets);
        LeftOfKeepsKeyed(v.clients, Flush(v.clients, v.sockets).kept);
      case CheckPass(clock) =>
        CheckLeaves(v.clients, v.sockets, clock, 0);
        LeftOfKeepsKeyed(v.clients, Check(v.clients, v.sockets, clock, 0).kept);
    }
  }

  // ---------- The socket pool ----------

  /** What DestroySocket compares. */
  datatype Entry = Entry(fd: int, bindaddr: string)

  function EntryOf(s: Socket): Entry {
    Entry(s.fd, s.bindaddr)
  }

  function Entries(ss: seq<Socket>): (r: seq<Entry>)
    ensures |r| == |ss|
  {
    seq(|ss|, i requires 0 <= i < |ss| => EntryOf(ss[i]))
  }

  function ClientEntries(cs: seq<ClientState>): (r: seq<Entry>)
    ensures |r| == |cs|
  {
    seq(|cs|, i requires 0 <= i < |cs| => EntryOf(cs[i].s))
  }

  lemma EntriesCons(ss: seq<Socket>)
    requires ss != []
    ensures multiset(Entries(ss)) == multiset{EntryOf(ss[0])} + multiset(Entries(ss[1..]))
  {
    assert Entries(ss) == [EntryOf(ss[0])] + Entries(ss[1..]);
  }

  lemma ClientEntriesCons(cs: seq<ClientState>)
    requires cs != []
    ensures multiset(ClientEntries(cs)) == multiset{EntryOf(cs[0].s)} + multiset(ClientEntries(cs[1..]))
  {
    assert ClientEntries(cs) == [EntryOf(cs[0].s)] + ClientEntries(cs[1..]);
  }

  lemma {:induction false} RemovalDropsOneEntry(ss: seq<Socket>, s: Socket)
    requires EntryOf(s) in multiset(Entries(ss))
    ensures multiset(Entries(WithoutSocket(ss, s))) == multiset(Entries(ss)) - multiset{EntryOf(s)}
  {
    EntriesCons(ss);
    if !SameEntry(ss[0], s) {
      assert EntryOf(s) in multiset(Entries(ss[1..]));
      RemovalDropsOneEntry(ss[1..], s);
      var rest := WithoutSocket(ss[1..], s);
      EntriesCons([ss[0]] + rest);
      assert ([ss[0]] + rest)[1..] == rest;
    }
  }

  /** The socket pool holds `others` and one entry for each of these clients. */
  ghost predicate Agree(sockets: seq<Socket>, others: multiset<Entry>, cs: seq<ClientState>) {
    multiset(Entries(sockets)) == others + multiset(ClientEntries(cs))
  }

  lemma {:induction false} FlushKeepsAgreement(cs: seq<ClientState>, sockets: seq<Socket>, others: multiset<Entry>)
    requires Agree(sockets, others, cs)
    ensures Agree(Flush(cs, sockets).sockets, others, Flush(cs, sockets).kept)
    decreases |cs|
  {
    hide WithoutSocket, SentBy, Entries, ClientEntries;
    if cs == [] {
    } else {
      ClientEntriesCons(cs);
      if !cs[0].ses.destroy {
        var r := Flush(cs[1..], sockets);
        FlushKeepsAgreement(cs[1..], sockets, others + multiset{EntryOf(cs[0].s)});
        AgreementCons(r.sockets, others, Emptied(cs[0]), r.kept);
      } else {
        var left := WithoutSocket(sockets, cs[0].s);
        RemovalDropsOneEntry(sockets, cs[0].s);
        assert Agree(left, others, cs[1..]);
        if |cs| > 1 {
          var r := Flush(cs[2..], left);
          ClientEntriesCons(cs[1..]);
          assert cs[1..][1..] == cs[2..];
          FlushKeepsAgreement(cs[2..], left, others + multiset{EntryOf(cs[1].s)});
          AgreementCons(r.sockets, others, cs[1], r.kept);
        } else {
          assert cs[1..] == [];
        }
      }
    }
  }

  lemma AgreementCons(sockets: seq<Socket>, others: multiset<Entry>, c: ClientState, kept: seq<ClientState>)
    requires Agree(sockets, others + multiset{EntryOf(c.s)}, kept)
    ensures Agree(sockets, others, [c] + kept)
  {
    hide Entries, ClientEntries;
    ClientEntriesCons([c] + kept);
    assert ([c] + kept)[1..] == kept;
  }

  lemma {:induction false} CheckKeepsAgreement(cs: seq<ClientState>, sockets: seq<Socket>, clock: Clock, i: nat, others: multiset<Entry>)
    requires Agree(sockets, others, cs)
    ensures Agree(Check(cs, sockets, clock, i).sockets, others, Check(cs, sockets, clock, i).kept)
    decreases |cs|
  {
    hide WithoutSocket, Entries, ClientEntries;
    if cs == [] {
    } else {
      ClientEntriesCons(cs);
      if !(Expired(cs[0], clock(i)) && cs[0].ses.waiting >= 3) {
        var r := Check(cs[1..], sockets, clock, i + 1);
        CheckKeepsAgreement(cs[1..], sockets, clock, i + 1, others + multiset{EntryOf(cs[0].s)});
        AgreementCons(r.sockets, others, if Expired(cs[0], clock(i)) then Resent(cs[0], clock(i)) else cs[0], r.kept);
      } else {
        var left := WithoutSocket(sockets, cs[0].s);
        RemovalDropsOneEntry(sockets, cs[0].s);
        assert Agree(left, others, cs[1..]);
        if |cs| > 1 {
          var r := Check(cs[2..], left, clock, i + 1);
          ClientEntriesCons(cs[1..]);
          assert cs[1..][1..] == cs[2..];
          CheckKeepsAgreement(cs[2..], left, clock, i + 1, others + multiset{EntryOf(cs[1].s)});
          AgreementCons(r.sockets, others, cs[1], r.kept);
        } else {
          assert cs[1..] == [];
        }
      }
    }
  }

  lemma ReceiveKeepsAgreement(v: Srv, fd: int, addr: Address, d: seq<Byte>, env: Env, now: int, others: multiset<Entry>)
    requires |d| <= PKTLEN && Agree(v.sockets, others, v.clients)
    ensures var w := Receive(v, fd, addr, d, env, now); Agree(w.sockets, others, w.clients)
  {
    hide Deliver, FindClient;
    var (w, i) := Allocate(v, fd, addr);
    if FindClient(v.clients, fd, addr) == -1 {
      var c := NewClient(fd, addr);
      assert Entries(w.sockets) == Entries(v.sockets) + [EntryOf(c.s)];
      assert ClientEntries(w.clients) == ClientEntries(v.clients) + [EntryOf(c.s)];
    }
    DeliverKeepsIdentity(w.clients[i], d, env, now);
    assert ClientEntries(w.clients[i := Deliver(w.clients[i], d, env, now)]) == ClientEntries(w.clients);
  }

  /** In every run, the socket pool is the bound listeners plus one entry per live client. */
  lemma {:induction false} PoolsAgree(listeners: seq<Socket>, evs: seq<Event>)
    requires AllSensible(evs)
    ensures var v := Run(listeners, evs);
      multiset(Entries(v.sockets)) == multiset(Entries(listeners)) + multiset(ClientEntries(v.clients))
  {
    hide Receive, Flush, Check, Entries, ClientEntries;
    var others := multiset(Entries(listeners));
    if evs == [] {
      assert ClientEntries([]) == [];
    } else {
      var v, e := Run(listeners, evs[..|evs| - 1]), evs[|evs| - 1];
      PoolsAgree(listeners, evs[..|evs| - 1]);
      assert Agree(v.sockets, others, v.clients);
      match e
      case Datagram(fd, addr, d, env, now) => ReceiveKeepsAgreement(v, fd, addr, d, env, now, others);
      case SendPass => FlushKeepsAgreement(v.clients, v.sockets, others);
      case CheckPass(clock) => CheckKeepsAgreement(v.clients, v.sockets, clock, 0, others);
    }
  }
}
