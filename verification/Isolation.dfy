/**
 Session isolation: what one peer's session goes through in a run of the whole server is a run of a
 server that has no other peer, fed the same datagrams.
 */
module Isolation {
  import opened Options
  import opened Bytes
  import opened Wire
  import opened Requests
  import opened Sessions
  import opened Clients
  import opened Servers
  import opened Pools

  // ---------- One peer alone ----------

  datatype Alone = Alone(client: Option<ClientState>, sent: seq<seq<Byte>>)

  datatype Step =
    | Got(addr: Address, d: seq<Byte>, env: Env, now: int)
    | Flushed
    | Checked(at: Reading)

  predicate StepFits(e: Step) {
    e.Got? ==> |e.d| <= PKTLEN
  }

  predicate StepsFit(es: seq<Step>) {
    forall i :: 0 <= i < |es| ==> StepFits(es[i])
  }

  function QueuedBytes(q: seq<Queued>): seq<seq<Byte>> {
    seq(|q|, i requires 0 <= i < |q| => q[i].bytes)
  }

  /** Processing a datagram queues the reaction's packets behind what was queued. */
  lemma DeliverOutput(c: ClientState, i: Input, now: int)
    requires |i.d| <= PKTLEN
    ensures var r := React(c.ses, i.d, i.env); var c' := Deliver(c, i.d, i.env, now);
      && c'.ses == r.ses && c'.queue == c.queue + MarkFresh(r.out)
      && QueuedBytes(c'.queue) == QueuedBytes(c.queue) + r.out
      && (r.out == [] ==> c'.queue == c.queue)
      && c'.s == c.s && c'.nextresend == (if r.out == [] then c.nextresend else now + 5)
  {
    hide React;
    var r := React(c.ses, i.d, i.env);
    EnqueueAllAppends(c, r.out, now);
    assert QueuedBytes(c.queue + MarkFresh(r.out)) == QueuedBytes(c.queue) + r.out;
    if r.out == [] {
      assert MarkFresh(r.out) == [];
    }
  }

  function AloneNext(fd: int, a: Alone, e: Step): Alone
    requires StepFits(e)
  {
    match e
    case Got(addr, d, env, now) =>
      var c := if a.client.None? then NewClient(fd, addr) else a.client.value;
      a.(client := Some(Deliver(c, d, env, now)))
    case Flushed =>
      if a.client.None? then a
      else
        var c := a.client.value;
        Alone(if c.ses.destroy then None else Some(Emptied(c)), a.sent + QueuedBytes(c.queue))
    case Checked(now) =>
      if a.client.None? || !Expired(a.client.value, now) then a
      else if a.client.value.ses.waiting >= 3 then a.(client := None)
      else a.(client := Some(Resent(a.client.value, now)))
  }

  /** Steps from any state. */
  function AloneFrom(fd: int, a: Alone, es: seq<Step>): Alone
    requires StepsFit(es)
  {
    if es == [] then a
    else AloneNext(fd, AloneFrom(fd, a, es[..|es| - 1]), es[|es| - 1])
  }

  /** Steps from the beginning, when there is no client yet. */
  function AloneRun(fd: int, es: seq<Step>): Alone
    requires StepsFit(es)
  {
    AloneFrom(fd, Alone(None, []), es)
  }

  // ---------- One peer in the crowd ----------

  /** The client of a key; the invariant Keyed makes it unique. */
  function ClientOf(cs: seq<ClientState>, k: Key): Option<ClientState> {
    if cs == [] then None else if ClientKey(cs[0]) == k then Some(cs[0]) else ClientOf(cs[1..], k)
  }

  /** What was sent to a key, oldest first. */
  function SentTo(wire: seq<Sent>, k: Key): seq<seq<Byte>> {
    if wire == [] then []
    else SentTo(wire[..|wire| - 1], k) +
         (if KeyOf(wire[|wire| - 1].fd, wire[|wire| - 1].addr) == k then [wire[|wire| - 1].bytes] else [])
  }

  /** Does a flush pass over these clients visit the key's client? */
  predicate FlushVisits(cs: seq<ClientState>, k: Key) {
    if cs == [] then false
    else if ClientKey(cs[0]) == k then true
    else if !cs[0].ses.destroy then FlushVisits(cs[1..], k)
    else |cs| > 1 && ClientKey(cs[1]) != k && FlushVisits(cs[2..], k)
  }

  /** When a retry pass that is at position i visits the key's client, if it does. */
  function CheckedAt(cs: seq<ClientState>, clock: Clock, i: nat, k: Key): Option<Reading> {
    if cs == [] then None
    else if ClientKey(cs[0]) == k then Some(clock(i))
    else if !(Expired(cs[0], clock(i)) && cs[0].ses.waiting >= 3) then CheckedAt(cs[1..], clock, i + 1, k)
    else if |cs| == 1 || ClientKey(cs[1]) == k then None
    else CheckedAt(cs[2..], clock, i + 1, k)
  }

  /** What an event means for one key: its own datagram, a pass that visits its client, or nothing. */
  function StepsBy(cs: seq<ClientState>, e: Event, k: Key): (es: seq<Step>)
    ensures |es| <= 1
    ensures Sensible(e) ==> StepsFit(es)
  {
    match e
    case Datagram(fd, addr, d, env, now) => if KeyOf(fd, addr) == k then [Got(addr, d, env, now)] else []
    case SendPass => if FlushVisits(cs, k) then [Flushed] else []
    case CheckPass(clock) =>
      var at := CheckedAt(cs, clock, 0, k);
      if at.Some? then [Checked(at.value)] else []
  }

  /** The steps of one key in a run. */
  function StepsOf(listeners: seq<Socket>, evs: seq<Event>, k: Key): (es: seq<Step>)
    requires AllSensible(evs)
    ensures StepsFit(es)
  {
    if evs == [] then []
    else
      var before := evs[..|evs| - 1];
      StepsOf(listeners, before, k) + StepsBy(Run(listeners, before).clients, evs[|evs| - 1], k)
  }

  // ---------- Passes, seen by one key ----------

  lemma {:induction false} SentToConcat(a: seq<Sent>, b: seq<Sent>, k: Key)
    ensures SentTo(a + b, k) == SentTo(a, k) + SentTo(b, k)
    decreases |b|
  {
    hide KeyOf;
    if b == [] {
      assert a + b == a;
    } else {
      assert (a + b)[..|a + b| - 1] == a + b[..|b| - 1];
      SentToConcat(a, b[..|b| - 1], k);
    }
  }

  lemma {:induction false} SentToOwn(c: ClientState, n: nat, k: Key)
    requires n <= |c.queue|
    ensures SentTo(SentBy(c)[..n], k) == if ClientKey(c) == k then QueuedBytes(c.queue)[..n] else []
  {
    if n > 0 {
      SentToOwn(c, n - 1, k);
      assert SentBy(c)[..n][..n - 1] == SentBy(c)[..n - 1];
      assert QueuedBytes(c.queue)[..n] == QueuedBytes(c.queue)[..n - 1] + [c.queue[n - 1].bytes];
    }
  }

  lemma SentToBy(c: ClientState, k: Key)
    ensures SentTo(SentBy(c), k) == if ClientKey(c) == k then QueuedBytes(c.queue) else []
  {
    SentToOwn(c, |c.queue|, k);
    assert SentBy(c)[..|c.queue|] == SentBy(c) && QueuedBytes(c.queue)[..|c.queue|] == QueuedBytes(c.queue);
  }

  lemma {:induction false} ClientOfAbsent(cs: seq<ClientState>, k: Key)
    requires forall i :: 0 <= i < |cs| ==> ClientKey(cs[i]) != k
    ensures ClientOf(cs, k) == None
  {
    hide ClientKey;
    if cs != [] {
      ClientOfAbsent(cs[1..], k);
    }
  }

  lemma {:induction false} FlushSeenBy(cs: seq<ClientState>, sockets: seq<Socket>, k: Key)
    requires Keyed(cs) && k.port != LOST_PORT
    ensures var r := Flush(cs, sockets); var c := ClientOf(cs, k);
      if FlushVisits(cs, k) then
        && c.Some?
        && ClientOf(r.kept, k) == (if c.value.ses.destroy then None else Some(Emptied(c.value)))
        && SentTo(r.sent, k) == QueuedBytes(c.value.queue)
      else
        ClientOf(r.kept, k) == c && SentTo(r.sent, k) == []
    decreases |cs|
  {
    hide WithoutSocket, SentBy, ClientKey, Emptied, SentTo, QueuedBytes;
    if cs == [] {
      assert SentTo([], k) == [] by { NothingSent(k); }
    } else {
      KeyedTail(cs);
      SentToBy(cs[0], k);
      EmptiedKey(cs[0]);
      if ClientKey(cs[0]) == k {
        OtherFlush(cs, sockets, k);
      } else if !cs[0].ses.destroy {
        var r := Flush(cs[1..], sockets);
        FlushSeenBy(cs[1..], sockets, k);
        SentToConcat(SentBy(cs[0]), r.sent, k);
        assert ([Emptied(cs[0])] + r.kept)[1..] == r.kept;
      } else if |cs| > 1 {
        var left := WithoutSocket(sockets, cs[0].s);
        var r := Flush(cs[2..], left);
        KeyedTail(cs[1..]);
        assert cs[1..][1..] == cs[2..];
        SentToConcat(SentBy(cs[0]), r.sent, k);
        assert ([cs[1]] + r.kept)[1..] == r.kept;
        if ClientKey(cs[1]) == k {
          FlushMissesAbsent(cs[2..], left, k);
        } else {
          FlushSeenBy(cs[2..], left, k);
        }
      }
    }
  }

  lemma NothingSent(k: Key)
    ensures SentTo([], k) == []
  {
  }

  lemma EmptiedKey(c: ClientState)
    ensures ClientKey(Emptied(c)) == ClientKey(c) && Emptied(c).ses == c.ses
  {
  }

  /** A flush pass over clients of other keys does not concern this one. */
  lemma {:induction false} FlushMissesAbsent(cs: seq<ClientState>, sockets: seq<Socket>, k: Key)
    requires forall i :: 0 <= i < |cs| ==> ClientKey(cs[i]) != k
    ensures ClientOf(Flush(cs, sockets).kept, k) == None && SentTo(Flush(cs, sockets).sent, k) == []
    ensures ClientOf(cs, k) == None && !FlushVisits(cs, k)
    decreases |cs|
  {
    hide WithoutSocket, SentBy, ClientKey, Emptied, SentTo, QueuedBytes;
    NothingSent(k);
    if cs != [] {
      SentToBy(cs[0], k);
      EmptiedKey(cs[0]);
      ClientOfAbsent(cs, k);
      if !cs[0].ses.destroy {
        var r := Flush(cs[1..], sockets);
        FlushMissesAbsent(cs[1..], sockets, k);
        SentToConcat(SentBy(cs[0]), r.sent, k);
        assert ([Emptied(cs[0])] + r.kept)[1..] == r.kept;
      } else if |cs| > 1 {
        var left := WithoutSocket(sockets, cs[0].s);
        var r := Flush(cs[2..], left);
        FlushMissesAbsent(cs[2..], left, k);
        SentToConcat(SentBy(cs[0]), r.sent, k);
        assert ([cs[1]] + r.kept)[1..] == r.kept;
      }
    }
  }

  /** The case of FlushSeenBy where the key's client comes first. */
  lemma OtherFlush(cs: seq<ClientState>, sockets: seq<Socket>, k: Key)
    requires Keyed(cs) && k.port != LOST_PORT && cs != [] && ClientKey(cs[0]) == k
    ensures var r := Flush(cs, sockets);
      && ClientOf(r.kept, k) == (if cs[0].ses.destroy then None else Some(Emptied(cs[0])))
      && SentTo(r.sent, k) == QueuedBytes(cs[0].queue)
  {
    hide WithoutSocket, SentBy, ClientKey, Emptied, SentTo, QueuedBytes;
    KeyedTail(cs);
    SentToBy(cs[0], k);
    EmptiedKey(cs[0]);
    if !cs[0].ses.destroy {
      var r := Flush(cs[1..], sockets);
      FlushMissesAbsent(cs[1..], sockets, k);
      SentToConcat(SentBy(cs[0]), r.sent, k);
    } else if |cs| > 1 {
      var left := WithoutSocket(sockets, cs[0].s);
      var r := Flush(cs[2..], left);
      assert cs[1..][1..] == cs[2..] && cs[1..][0] == cs[1];
      assert forall j :: 0 <= j < |cs[2..]| ==> cs[2..][j] == cs[1..][j + 1];
      FlushMissesAbsent(cs[2..], left, k);
      SentToConcat(SentBy(cs[0]), r.sent, k);
      assert ([cs[1]] + r.kept)[1..] == r.kept;
    }
  }

  /** What one retry step makes of the client it visits. */
  function AfterCheck(c: ClientState, now: Reading): Option<ClientState> {
    if !Expired(c, now) then Some(c) else if c.ses.waiting >= 3 then None else Some(Resent(c, now))
  }

  lemma ResentKey(c: ClientState, now: Reading)
    ensures ClientKey(Resent(c, now)) == ClientKey(c)
  {
  }

  lemma {:induction false} CheckMissesAbsent(cs: seq<ClientState>, sockets: seq<Socket>, clock: Clock, i: nat, k: Key)
    requires forall j :: 0 <= j < |cs| ==> ClientKey(cs[j]) != k
    ensures ClientOf(Check(cs, sockets, clock, i).kept, k) == None
    decreases |cs|
  {
    hide WithoutSocket, ClientKey, Resent, Expired;
    if cs != [] {
      ResentKey(cs[0], clock(i));
      if !(Expired(cs[0], clock(i)) && cs[0].ses.waiting >= 3) {
        var r := Check(cs[1..], sockets, clock, i + 1);
        CheckMissesAbsent(cs[1..], sockets, clock, i + 1, k);
        var c := if Expired(cs[0], clock(i)) then Resent(cs[0], clock(i)) else cs[0];
        assert ([c] + r.kept)[1..] == r.kept;
      } else if |cs| > 1 {
        var left := WithoutSocket(sockets, cs[0].s);
        var r := Check(cs[2..], left, clock, i + 1);
        CheckMissesAbsent(cs[2..], left, clock, i + 1, k);
        assert ([cs[1]] + r.kept)[1..] == r.kept;
      }
    }
  }

  lemma {:induction false} CheckSeenBy(cs: seq<ClientState>, sockets: seq<Socket>, clock: Clock, i: nat, k: Key)
    requires Keyed(cs) && k.port != LOST_PORT
    ensures var r := Check(cs, sockets, clock, i); var c := ClientOf(cs, k);
      match CheckedAt(cs, clock, i, k)
      case None => ClientOf(r.kept, k) == c
      case Some(now) => c.Some? && ClientOf(r.kept, k) == AfterCheck(c.value, now)
    decreases |cs|
  {
    hide WithoutSocket, ClientKey, Resent, Expired;
    if cs != [] {
      KeyedTail(cs);
      ResentKey(cs[0], clock(i));
      if !(Expired(cs[0], clock(i)) && cs[0].ses.waiting >= 3) {
        var r := Check(cs[1..], sockets, clock, i + 1);
        var c := if Expired(cs[0], clock(i)) then Resent(cs[0], clock(i)) else cs[0];
        assert ([c] + r.kept)[1..] == r.kept;
        if ClientKey(cs[0]) != k {
          CheckSeenBy(cs[1..], sockets, clock, i + 1, k);
        }
      } else if |cs| > 1 {
        var left := WithoutSocket(sockets, cs[0].s);
        var r := Check(cs[2..], left, clock, i + 1);
        KeyedTail(cs[1..]);
        assert cs[1..][1..] == cs[2..] && cs[1..][0] == cs[1];
        assert forall j :: 0 <= j < |cs[2..]| ==> cs[2..][j] == cs[1..][j + 1];
        assert ([cs[1]] + r.kept)[1..] == r.kept;
        if ClientKey(cs[0]) == k || ClientKey(cs[1]) == k {
          CheckMissesAbsent(cs[2..], left, clock, i + 1, k);
        } else {
          CheckSeenBy(cs[2..], left, clock, i + 1, k);
        }
      }
    }
  }

  // ---------- Datagrams, seen by one key ----------

  lemma {:induction false} ClientOfIndex(cs: seq<ClientState>, i: nat, c: ClientState, k: Key)
    requires Keyed(cs) && k.port != LOST_PORT && i < |cs| && c.s == cs[i].s
    ensures ClientOf(cs[i := c], k) == if ClientKey(cs[i]) == k then Some(c) else ClientOf(cs, k)
    ensures ClientKey(cs[i]) == k ==> ClientOf(cs, k) == Some(cs[i])
  {
    if i == 0 {
      assert cs[0 := c][1..] == cs[1..];
    } else {
      KeyedTail(cs);
      assert cs[i := c][1..] == cs[1..][i - 1 := c];
      assert cs[1..][i - 1] == cs[i];
      ClientOfIndex(cs[1..], i - 1, c, k);
    }
  }

  lemma {:induction false} ClientOfSnoc(cs: seq<ClientState>, c: ClientState, k: Key)
    requires forall i :: 0 <= i < |cs| ==> ClientKey(cs[i]) != k
    ensures ClientOf(cs + [c], k) == if ClientKey(c) == k then Some(c) else None
  {
    hide ClientKey;
    if cs == [] {
      assert cs + [c] == [c];
      assert ClientOf([c][1..], k) == None;
    } else {
      assert (cs + [c])[1..] == cs[1..] + [c];
      ClientOfSnoc(cs[1..], c, k);
    }
  }

  lemma {:induction false} ClientOfOtherSnoc(cs: seq<ClientState>, c: ClientState, k: Key)
    requires ClientKey(c) != k
    ensures ClientOf(cs + [c], k) == ClientOf(cs, k)
  {
    hide ClientKey;
    if cs == [] {
      assert cs + [c] == [c];
      assert ClientOf([c][1..], k) == None;
    } else {
      assert (cs + [c])[1..] == cs[1..] + [c];
      ClientOfOtherSnoc(cs[1..], c, k);
    }
  }

  /** After FindOrAllocateClient, the pool with the new client is keyed, and the index belongs to the sender. */
  lemma AllocateSeenBy(v: Srv, fd: int, addr: Address, k: Key)
    requires Keyed(v.clients) && k.port != LOST_PORT
    ensures var (w, i) := Allocate(v, fd, addr);
      && Keyed(w.clients)
      && ClientKey(w.clients[i]) == KeyOf(fd, addr)
      && ClientOf(w.clients, k) ==
         (if KeyOf(fd, addr) == k && ClientOf(v.clients, k) == None then Some(NewClient(fd, addr)) else ClientOf(v.clients, k))
  {
    hide FindClient, NewClient, ClientKey, KeyOf;
    LookupByKey(v.clients, fd, addr);
    NewClientKey(fd, addr);
    var i := FindClient(v.clients, fd, addr);
    if i == -1 {
      if KeyOf(fd, addr) == k {
        ClientOfAbsent(v.clients, k);
        ClientOfSnoc(v.clients, NewClient(fd, addr), k);
      } else {
        ClientOfOtherSnoc(v.clients, NewClient(fd, addr), k);
      }
    } else {
      ClientOfIndex(v.clients, i, v.clients[i], k);
    }
  }

  lemma ReceiveSeenBy(v: Srv, fd: int, addr: Address, d: seq<Byte>, env: Env, now: int, k: Key)
    requires Keyed(v.clients) && k.port != LOST_PORT && |d| <= PKTLEN
    ensures var w := Receive(v, fd, addr, d, env, now); var c := ClientOf(v.clients, k);
      ClientOf(w.clients, k) ==
        if KeyOf(fd, addr) != k then c
        else Some(Deliver(if c.None? then NewClient(fd, addr) else c.value, d, env, now))
  {
    hide Deliver, NewClient, ClientKey, KeyOf, Allocate;
    AllocateSeenBy(v, fd, addr, k);
    var (w, i) := Allocate(v, fd, addr);
    DeliverKeepsIdentity(w.clients[i], d, env, now);
    ClientOfIndex(w.clients, i, Deliver(w.clients[i], d, env, now), k);
  }

  // ---------- Isolation ----------

  lemma AloneRunSnoc(fd: int, es: seq<Step>, e: Step)
    requires StepsFit(es) && StepFits(e)
    ensures StepsFit(es + [e])
    ensures AloneRun(fd, es + [e]) == AloneNext(fd, AloneRun(fd, es), e)
  {
    assert (es + [e])[..|es|] == es;
  }

  lemma NothingMore(es: seq<Step>)
    ensures es + [] == es
  {
  }

  /**
   In every run of the server, a peer's client and everything sent to it are what the peer's own steps
   produce alone: other peers' datagrams, requests, failures and removals leave no trace in its session.
   */
  lemma {:induction false} SessionsAreIsolated(listeners: seq<Socket>, evs: seq<Event>, k: Key)
    requires AllSensible(evs) && k.port != LOST_PORT
    ensures var v := Run(listeners, evs);
      AloneRun(k.fd, StepsOf(listeners, evs, k)) == Alone(ClientOf(v.clients, k), SentTo(v.wire, k))
  {
    hide Receive, Flush, Check, ClientOf, SentTo, FlushVisits, CheckedAt, KeyOf, NewClient, Deliver, QueuedBytes, Emptied,
         Expired, Resent;
    if evs == [] {
      ClientOfAbsent([], k);
      NothingSent(k);
    } else {
      var before, e := evs[..|evs| - 1], evs[|evs| - 1];
      var v := Run(listeners, before);
      var steps := StepsOf(listeners, before, k);
      SessionsAreIsolated(listeners, before, k);
      RunsAreKeyed(listeners, before);
      NothingMore(steps);
      match e
      case Datagram(fd, addr, d, env, now) =>
        ReceiveSeenBy(v, fd, addr, d, env, now, k);
        assert Receive(v, fd, addr, d, env, now).wire == v.wire by { ReceiveSendsNothing(v, fd, addr, d, env, now); }
        KeyDescriptor(fd, addr);
        AloneRunSnoc(k.fd, steps, Got(addr, d, env, now));
      case SendPass =>
        var r := Flush(v.clients, v.sockets);
        FlushSeenBy(v.clients, v.sockets, k);
        SentToConcat(v.wire, r.sent, k);
        AloneRunSnoc(k.fd, steps, Flushed);
      case CheckPass(clock) =>
        var r := Check(v.clients, v.sockets, clock, 0);
        CheckSeenBy(v.clients, v.sockets, clock, 0, k);
        CheckLeaves(v.clients, v.sockets, clock, 0);
        SentToConcat(v.wire, r.sent, k);
        NothingSent(k);
        var at := CheckedAt(v.clients, clock, 0, k);
        if at.Some? {
          AloneRunSnoc(k.fd, steps, Checked(at.value));
        }
    }
  }

  lemma ReceiveSendsNothing(v: Srv, fd: int, addr: Address, d: seq<Byte>, env: Env, now: int)
    requires |d| <= PKTLEN
    ensures Receive(v, fd, addr, d, env, now).wire == v.wire
  {
    hide Deliver, FindClient;
  }

  lemma KeyDescriptor(fd: int, addr: Address)
    ensures KeyOf(fd, addr).fd == fd
  {
  }

  lemma StepsSnoc(listeners: seq<Socket>, evs: seq<Event>, e: Event, k: Key)
    requires AllSensible(evs) && Sensible(e)
    ensures AllSensible(evs + [e])
    ensures StepsOf(listeners, evs + [e], k) == StepsOf(listeners, evs, k) + StepsBy(Run(listeners, evs).clients, e, k)
  {
    hide Run, StepsBy;
    assert (evs + [e])[..|evs|] == evs;
  }

  /** The key's side of a run: its client and what was sent to it. */
  function KeySide(v: Srv, k: Key): Alone {
    Alone(ClientOf(v.clients, k), SentTo(v.wire, k))
  }

  /** An event takes the key's side at most one step. */
  lemma KeySideSnoc(listeners: seq<Socket>, evs: seq<Event>, e: Event, k: Key)
    requires AllSensible(evs) && Sensible(e) && k.port != LOST_PORT
    ensures AllSensible(evs + [e])
    ensures var v := Run(listeners, evs); var steps := StepsBy(v.clients, e, k);
      KeySide(Run(listeners, evs + [e]), k) ==
        if steps == [] then KeySide(v, k) else AloneNext(k.fd, KeySide(v, k), steps[0])
  {
    hide Run, StepsBy, ClientOf, SentTo, AloneNext, AloneRun, StepsOf;
    StepsSnoc(listeners, evs, e, k);
    SessionsAreIsolated(listeners, evs, k);
    SessionsAreIsolated(listeners, evs + [e], k);
    var steps, more := StepsOf(listeners, evs, k), StepsBy(Run(listeners, evs).clients, e, k);
    NothingMore(steps);
    if more != [] {
      assert more == [more[0]];
      AloneRunSnoc(k.fd, steps, more[0]);
    }
  }

  // ---------- The steps are the peer's own datagrams ----------

  function InputsOf(evs: seq<Event>, k: Key): seq<Input> {
    if evs == [] then []
    else
      InputsOf(evs[..|evs| - 1], k) +
      match evs[|evs| - 1]
      case Datagram(fd, addr, d, env, now) => if KeyOf(fd, addr) == k then [Input(d, env)] else []
      case _ => []
  }

  function InputsIn(es: seq<Step>): (h: seq<Input>)
    requires StepsFit(es)
    ensures Received(h)
  {
    if es == [] then []
    else InputsIn(es[..|es| - 1]) + (if es[|es| - 1].Got? then [Input(es[|es| - 1].d, es[|es| - 1].env)] else [])
  }

  lemma InputsInSnoc(es: seq<Step>, e: Step)
    requires StepsFit(es) && StepFits(e)
    ensures InputsIn(es + [e]) == InputsIn(es) + (if e.Got? then [Input(e.d, e.env)] else [])
  {
    assert (es + [e])[..|es|] == es;
  }

  /** Exactly the datagrams of the key reach its session, in order. */
  lemma {:induction false} StepsCarryOwnInputs(listeners: seq<Socket>, evs: seq<Event>, k: Key)
    requires AllSensible(evs)
    ensures InputsIn(StepsOf(listeners, evs, k)) == InputsOf(evs, k)
  {
    hide Run, FlushVisits, CheckedAt, KeyOf;
    if evs != [] {
      var before, e := evs[..|evs| - 1], evs[|evs| - 1];
      var steps := StepsOf(listeners, before, k);
      StepsCarryOwnInputs(listeners, before, k);
      NothingMore(steps);
      match e
      case Datagram(fd, addr, d, env, now) => InputsInSnoc(steps, Got(addr, d, env, now));
      case SendPass => InputsInSnoc(steps, Flushed);
      case CheckPass(clock) =>
        var at := CheckedAt(Run(listeners, before).clients, clock, 0, k);
        if at.Some? {
          InputsInSnoc(steps, Checked(at.value));
        }
    }
  }
}
