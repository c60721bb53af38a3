/** A read transfer driven by its receiver's acknowledgements: it stays in step, it completes, and what it leaves. */
module ReadLoop {
  import opened Options
  import opened Bytes
  import opened Wire
  import opened Requests
  import opened Sessions
  import opened Clients
  import opened Servers
  import opened Pools
  import opened ReadTransfers
  import opened Isolation
  import opened ReadSafety

  /** What does not change during a transfer. */
  datatype Setting = Setting(file: seq<Byte>, m: Mode, request: seq<Byte>, env: Env, fd: int, addr: Address)

  /** The server's side of the peer, the two channels, the receiver. */
  datatype Fetch = Fetch(server: Alone, toServer: seq<seq<Byte>>, toPeer: seq<seq<Byte>>, receiver: Receiver)

  datatype Action =
    | ServerReceives(now: int)
    | ServerFlushes
    | ServerChecks(at: Reading)
    | PeerReceives

  ghost predicate Granted(t: Setting) {
    IsReadRequest(t.request, t.env, t.file, t.m)
  }

  function Start(t: Setting): Fetch {
    Fetch(Alone(None, []), [t.request], [], Receiver([], 0, false))
  }

  function ServerTakes(t: Setting, x: Fetch, now: int): Fetch {
    if x.toServer == [] || |x.toServer[0]| > PKTLEN then x
    else x.(server := AloneNext(t.fd, x.server, Got(t.addr, x.toServer[0], t.env, now)), toServer := x.toServer[1..])
  }

  /** The flush pass: what it adds to the packets sent is what the peer will read. */
  function ServerSends(t: Setting, x: Fetch): Fetch {
    x.(server := AloneNext(t.fd, x.server, Flushed), toPeer := x.toPeer + Pending(x.server.client))
  }

  /** The peer: option acknowledgements get block number 0, accepted blocks their own, the rest nothing. */
  function PeerTakes(t: Setting, x: Fetch): Fetch {
    if x.toPeer == [] then x
    else
      var p := x.toPeer[0];
      var r := Accept(x.receiver, BlockSize(t.m), p);
      var reply :=
        if Decode(p).Oack? then [AckPacket(0)]
        else if r.accepted > x.receiver.accepted then [AckPacket(r.accepted % 0x1_0000)]
        else [];
      Fetch(x.server, x.toServer + reply, x.toPeer[1..], r)
  }

  function Act(t: Setting, x: Fetch, a: Action): Fetch {
    match a
    case ServerReceives(now) => ServerTakes(t, x, now)
    case ServerFlushes => ServerSends(t, x)
    case ServerChecks(at) => x.(server := AloneNext(t.fd, x.server, Checked(at)))
    case PeerReceives => PeerTakes(t, x)
  }

  function Reach(t: Setting, actions: seq<Action>): Fetch {
    if actions == [] then Start(t)
    else Act(t, Reach(t, actions[..|actions| - 1]), actions[|actions| - 1])
  }

  // ---------- Lock step ----------

  /** Number of the short block. */
  function Blocks(t: Setting): (n: nat)
    requires BlockSize(t.m) > 0
    ensures n >= 1
  {
    |t.file| / BlockSize(t.m) + 1
  }

  /** Number of the first packet: 0 is the option acknowledgement. */
  function First(t: Setting): (o: nat)
    ensures o <= 1
  {
    BlocksInOpening(t.m)
  }

  /** Number of the last packet the server sends. */
  function Last(t: Setting): nat
    requires BlockSize(t.m) > 0
  {
    First(t) + AcksToFinish(t.file, t.m)
  }

  /** Everything the server sends. */
  function All(t: Setting): (ps: seq<seq<Byte>>)
    requires BlockSize(t.m) > 0
    ensures |ps| == AcksToFinish(t.file, t.m) + 1
  {
    Stream(t.file, t.m, AcksToFinish(t.file, t.m))
  }

  function Packet(t: Setting, k: nat): seq<Byte> {
    if k == 0 && t.m.Negotiated? then OackPacket(t.m.opt, t.m.param)
    else if k == 0 then []
    else BlockPacket(t.file, BlockSize(t.m), k)
  }

  /** The datagram that packet k answers. */
  function Trigger(t: Setting, k: nat): seq<Byte>
    requires k >= First(t)
  {
    if k == First(t) then t.request else AckPacket((k - 1) % 0x1_0000)
  }

  /** The server has read up to packet k and is idle in between. */
  ghost predicate AtPacket(t: Setting, a: Alone, k: nat) {
    && a.client.Some?
    && Serving(a.client.value.ses, t.file, BlockSize(t.m), k)
    && a.client.value.ses.waiting == 0
  }

  ghost predicate Took(t: Setting, r: Receiver, n: nat)
    requires BlockSize(t.m) > 0
  {
    InStep(r, t.file, BlockSize(t.m)) && r.accepted == n && (r.done <==> n == Blocks(t))
  }

  /** The datagram that makes the server send packet k is under way. */
  ghost predicate Requesting(t: Setting, x: Fetch)
    requires BlockSize(t.m) > 0
  {
    var k := First(t) + |x.server.sent|;
    && k <= Last(t)
    && x.toServer == [Trigger(t, k)] && x.toPeer == []
    && x.server.sent == All(t)[..|x.server.sent|]
    && Took(t, x.receiver, if k == 0 then 0 else k - 1)
    && if k == First(t) then x.server.client == None
       else AtPacket(t, x.server, k - 1) && !x.server.client.value.ses.destroy && x.server.client.value.queue == []
  }

  /** Packet k is queued. */
  ghost predicate Answering(t: Setting, x: Fetch)
    requires BlockSize(t.m) > 0
  {
    var k := First(t) + |x.server.sent|;
    && k <= Last(t)
    && x.toServer == [] && x.toPeer == []
    && x.server.sent == All(t)[..|x.server.sent|]
    && Took(t, x.receiver, if k == 0 then 0 else k - 1)
    && AtPacket(t, x.server, k) && (x.server.client.value.ses.destroy <==> k == Last(t))
    && QueuedBytes(x.server.client.value.queue) == [Packet(t, k)]
  }

  /** Packet k is under way to the peer; with the last one the server is done. */
  ghost predicate Delivering(t: Setting, x: Fetch)
    requires BlockSize(t.m) > 0
  {
    && x.server.sent != []
    && var k := First(t) + |x.server.sent| - 1;
      && k <= Last(t)
      && x.toServer == [] && x.toPeer == [Packet(t, k)]
      && x.server.sent == All(t)[..|x.server.sent|]
      && Took(t, x.receiver, if k == 0 then 0 else k - 1)
      && if k == Last(t) then x.server.client == None
         else AtPacket(t, x.server, k) && !x.server.client.value.ses.destroy && x.server.client.value.queue == []
  }

  /** Does the last packet repeat the end of the file, which the peer has already? */
  predicate EndsTwice(t: Setting) {
    t.m.Default? && |t.file| < 512
  }

  /** The last acknowledgement is under way, and the server has forgotten the peer. */
  ghost predicate Closing(t: Setting, x: Fetch)
    requires BlockSize(t.m) > 0
  {
    && !EndsTwice(t)
    && x.toServer == [AckPacket(Blocks(t) % 0x1_0000)] && x.toPeer == []
    && x.server == Alone(None, All(t)) && Took(t, x.receiver, Blocks(t))
  }

  /** Nothing is under way. A peer whose last acknowledgement came too late has an idle client for good. */
  ghost predicate Finished(t: Setting, x: Fetch)
    requires BlockSize(t.m) > 0
  {
    && x.toServer == [] && x.toPeer == []
    && x.server.sent == All(t) && Took(t, x.receiver, Blocks(t))
    && (x.server.client.Some? <==> !EndsTwice(t))
    && (x.server.client.Some? ==> Idle(x.server.client.value))
  }

  ghost predicate LockStep(t: Setting, x: Fetch)
    requires BlockSize(t.m) > 0
  {
    Requesting(t, x) || Answering(t, x) || Delivering(t, x) || Closing(t, x) || Finished(t, x)
  }

  // ---------- Steps ----------

  lemma GrantedFacts(t: Setting)
    requires Granted(t)
    ensures BlockSize(t.m) >= 8 && |t.request| <= PKTLEN
    ensures t.m.Negotiated? ==> NulFree(t.m.opt)
  {
    RequestFits(t.request, t.env, t.file, t.m);
    OptionIsString(t.request, t.env, t.file, t.m);
  }

  lemma LastIsShort(t: Setting)
    requires BlockSize(t.m) > 0
    ensures Last(t) == (if EndsTwice(t) then 2 else Blocks(t)) && Last(t) >= Blocks(t)
    ensures EndsTwice(t) ==> Blocks(t) == 1
  {
  }

  lemma PacketIs(t: Setting, q: nat)
    requires BlockSize(t.m) > 0 && q < |All(t)|
    ensures All(t)[q] == Packet(t, First(t) + q)
    ensures All(t)[..q] + [Packet(t, First(t) + q)] == All(t)[..q + 1]
    ensures All(t)[..|All(t)|] == All(t) && All(t)[..0] == []
  {
    hide BlockPacket, OackPacket;
  }

  lemma RequestIsAnswered(t: Setting, x: Fetch, now: int)
    requires Granted(t) && BlockSize(t.m) > 0 && Requesting(t, x) && x.server.sent == []
    ensures Answering(t, ServerTakes(t, x, now)) && ServerTakes(t, x, now).server.sent == []
  {
    hide React, Deliver, IsReadRequest, Serving, AcksToFinish, BlockPacket, OackPacket, Took;
    GrantedFacts(t);
    RequestOpens(t.request, t.env, t.file, t.m);
    ReactFollows(FreshSession, t.request, t.env);
    NothingQueuedYet(t.fd, t.addr);
    DeliverOutput(NewClient(t.fd, t.addr), Input(t.request, t.env), now);
    OpensWaitingForNobody(t);
    assert AcksToFinish(t.file, t.m) > 0 by { SomeAcks(t); }
  }

  lemma SomeAcks(t: Setting)
    requires BlockSize(t.m) > 0
    ensures AcksToFinish(t.file, t.m) >= 1
  {
  }

  lemma OpensWaitingForNobody(t: Setting)
    requires Granted(t)
    ensures |t.request| <= PKTLEN && React(FreshSession, t.request, t.env).ses.waiting == 0
  {
    hide IsReadRequest;
    GrantedFacts(t);
    ReactFollows(FreshSession, t.request, t.env);
  }

  lemma AckIsAnswered(t: Setting, x: Fetch, now: int)
    requires BlockSize(t.m) > 0 && Requesting(t, x) && x.server.sent != []
    ensures Answering(t, ServerTakes(t, x, now)) && ServerTakes(t, x, now).server.sent == x.server.sent
  {
    hide React, Deliver, Serving, BlockPacket, OackPacket, Took, AckPacket, IsAck;
    var k, c := First(t) + |x.server.sent|, x.server.client.value;
    var d := AckPacket((k - 1) % 0x1_0000);
    AckPacketIsAck((k - 1) % 0x1_0000);
    AckFits(d);
    AckSendsNextBlock(c.ses, d, t.env, t.file, BlockSize(t.m), k - 1);
    ReactFollows(c.ses, d, t.env);
    assert QueuedBytes(c.queue) == [];
    DeliverOutput(c, Input(d, t.env), now);
    EndsAtLast(t, k);
  }

  lemma AckFits(d: seq<Byte>)
    requires IsAck(d)
    ensures |d| <= PKTLEN
  {
  }

  lemma EndsAtLast(t: Setting, k: nat)
    requires BlockSize(t.m) > 0 && First(t) < k <= Last(t)
    ensures Blocks(t) <= k <==> k == Last(t)
  {
    LastIsShort(t);
  }

  lemma AnswerIsSent(t: Setting, x: Fetch)
    requires BlockSize(t.m) > 0 && Answering(t, x)
    ensures Delivering(t, ServerSends(t, x)) && |ServerSends(t, x).server.sent| == |x.server.sent| + 1
  {
    hide Serving, BlockPacket, OackPacket, Took, AcksToFinish, All;
    PacketIs(t, |x.server.sent|);
  }

  lemma PacketDecodes(t: Setting, r: Receiver, k: nat)
    requires Granted(t) && BlockSize(t.m) > 0 && First(t) <= k <= Last(t)
    requires Took(t, r, if k == 0 then 0 else k - 1)
    ensures Decode(Packet(t, k)).Oack? <==> k == 0
    ensures var r' := Accept(r, BlockSize(t.m), Packet(t, k));
      if k == 0 || r.done then r' == r else Took(t, r', k)
    ensures r.done ==> k == Last(t) && EndsTwice(t)
  {
    hide BlockPacket, OackPacket, Decode, InStep, IsReadRequest, Block, AcksToFinish;
    GrantedFacts(t);
    var b := BlockSize(t.m);
    LastIsShort(t);
    if k == 0 {
      DecodeQueuedOack(t.m.opt, t.m.param);
    } else {
      DataDecodes(t.file, b, k);
      AcceptBlock(r, t.file, b, k);
      NextBlockKeepsStep(r, t.file, b);
      ShortBlock(t.file, b, k);
    }
  }

  lemma DataDecodes(file: seq<Byte>, b: nat, k: nat)
    requires k >= 1
    ensures Decode(BlockPacket(file, b, k)).Data?
  {
    hide DataPacket, Decode, Block;
    DecodeData(k % 0x1_0000, Block(file, b, k));
  }

  /** Where a delivered packet leads. */
  lemma PacketIsTaken(t: Setting, x: Fetch)
    requires Granted(t) && BlockSize(t.m) > 0 && Delivering(t, x)
    ensures var y := PeerTakes(t, x); var k := First(t) + |x.server.sent| - 1;
      && y.server.sent == x.server.sent
      && if k < Last(t) then Requesting(t, y) else if EndsTwice(t) then Finished(t, y) else Closing(t, y)
  {
    hide Accept, Serving, BlockPacket, OackPacket, AckPacket, Decode, InStep, IsReadRequest, AcksToFinish, Packet, All;
    var k := First(t) + |x.server.sent| - 1;
    LastIsShort(t);
    PacketDecodes(t, x.receiver, k);
    PacketIs(t, 0);
  }

  lemma LastAckMakesClient(t: Setting, x: Fetch, now: int)
    requires BlockSize(t.m) > 0 && Closing(t, x)
    ensures Finished(t, ServerTakes(t, x, now))
  {
    hide React, Deliver, AckPacket, Took, IsAck, AcksToFinish;
    var d := AckPacket(Blocks(t) % 0x1_0000);
    AckPacketIsAck(Blocks(t) % 0x1_0000);
    AckFits(d);
    var c := NewClient(t.fd, t.addr);
    NothingQueuedYet(t.fd, t.addr);
    IdleStaysIdle(c.ses, d, t.env);
    DeliverOutput(c, Input(d, t.env), now);
  }

  lemma QuietFlush(t: Setting, x: Fetch)
    requires BlockSize(t.m) > 0
    requires Requesting(t, x) || Delivering(t, x) || Closing(t, x) || Finished(t, x)
    ensures ServerSends(t, x) == x
  {
    hide Serving, Took, AckPacket, Packet, Trigger, All, AcksToFinish;
    if x.server.client.Some? {
      assert Emptied(x.server.client.value) == x.server.client.value;
      assert QueuedBytes(x.server.client.value.queue) == [];
    }
    assert x.toPeer + [] == x.toPeer && x.server.sent + [] == x.server.sent;
  }

  lemma QuietCheck(t: Setting, x: Fetch, at: Reading)
    requires BlockSize(t.m) > 0 && LockStep(t, x)
    ensures Act(t, x, ServerChecks(at)) == x
  {
    hide Serving, Took, AckPacket, Packet, Trigger, All, AcksToFinish;
  }

  // ---------- Runs ----------

  /** Every action keeps the transfer in lock step. */
  lemma ActKeepsLockStep(t: Setting, x: Fetch, a: Action)
    requires Granted(t) && BlockSize(t.m) > 0 && LockStep(t, x)
    ensures LockStep(t, Act(t, x, a))
  {
    hide Requesting, Answering, Delivering, Closing, Finished, IsReadRequest, ServerTakes, ServerSends, PeerTakes;
    match a
    case ServerReceives(now) =>
      if Requesting(t, x) {
        if x.server.sent == [] {
          RequestIsAnswered(t, x, now);
        } else {
          AckIsAnswered(t, x, now);
        }
      } else if Closing(t, x) {
        LastAckMakesClient(t, x, now);
      } else {
        NothingToTake(t, x, now);
      }
    case ServerFlushes =>
      if Answering(t, x) {
        AnswerIsSent(t, x);
      } else {
        QuietFlush(t, x);
      }
    case ServerChecks(at) => QuietCheck(t, x, at);
    case PeerReceives =>
      if Delivering(t, x) {
        PacketIsTaken(t, x);
      } else {
        NothingToRead(t, x);
      }
  }

  /** No action changes a finished transfer. */
  lemma FinishedStays(t: Setting, x: Fetch, a: Action)
    requires BlockSize(t.m) > 0 && Finished(t, x)
    ensures Act(t, x, a) == x
  {
    hide Took, All, AcksToFinish, ServerTakes, ServerSends;
    match a
    case ServerReceives(now) => NothingToTake(t, x, now);
    case ServerFlushes => QuietFlush(t, x);
    case ServerChecks(at) => QuietCheck(t, x, at);
    case PeerReceives =>
  }

  lemma NothingToTake(t: Setting, x: Fetch, now: int)
    requires BlockSize(t.m) > 0 && (Answering(t, x) || Delivering(t, x) || Finished(t, x))
    ensures ServerTakes(t, x, now) == x
  {
  }

  lemma NothingToRead(t: Setting, x: Fetch)
    requires BlockSize(t.m) > 0
    requires Requesting(t, x) || Answering(t, x) || Closing(t, x) || Finished(t, x)
    ensures PeerTakes(t, x) == x
  {
  }

  lemma LockStepMeansCorrect(t: Setting, x: Fetch)
    requires BlockSize(t.m) > 0 && LockStep(t, x)
    ensures x.server.sent <= All(t) && Holds(x.receiver, t.file)
    ensures x.receiver.done ==> x.receiver.accepted == Blocks(t)
  {
    hide Serving, Packet, Trigger, AckPacket, All, AcksToFinish, InStep;
    InStepHolds(x.receiver, t.file, BlockSize(t.m));
  }

  /**
   A read over a channel that keeps the order, however long the file and whenever passes run: the packets
   sent are a prefix of the stream, the receiver holds a prefix of the file, and the file when it is done.
   */
  lemma {:induction false} ReadLoopIsCorrect(t: Setting, actions: seq<Action>)
    requires Granted(t)
    ensures BlockSize(t.m) > 0 && LockStep(t, Reach(t, actions))
    ensures var x := Reach(t, actions); x.server.sent <= All(t) && Holds(x.receiver, t.file)
    decreases |actions|
  {
    hide LockStep, Act, IsReadRequest, Holds;
    GrantedFacts(t);
    if actions == [] {
      StartsRequesting(t);
    } else {
      ReadLoopIsCorrect(t, actions[..|actions| - 1]);
      ActKeepsLockStep(t, Reach(t, actions[..|actions| - 1]), actions[|actions| - 1]);
    }
    LockStepMeansCorrect(t, Reach(t, actions));
  }

  lemma StartsRequesting(t: Setting)
    requires BlockSize(t.m) > 0
    ensures Requesting(t, Start(t)) && LockStep(t, Start(t))
  {
    hide AcksToFinish, All;
    NothingAccepted(t.file, BlockSize(t.m));
  }

  lemma ReachSnoc(t: Setting, actions: seq<Action>, a: Action)
    ensures Reach(t, actions + [a]) == Act(t, Reach(t, actions), a)
  {
    hide Act;
    assert (actions + [a])[..|actions|] == actions;
  }

  /** One round: the server takes what is under way and answers, and the peer reads the answer. */
  const Round: seq<Action> := [ServerReceives(0), ServerFlushes, PeerReceives]

  function Rounds(n: nat): seq<Action> {
    if n == 0 then [] else Rounds(n - 1) + Round
  }

  lemma RoundRuns(t: Setting, actions: seq<Action>)
    ensures Reach(t, actions + Round) == PeerTakes(t, ServerSends(t, ServerTakes(t, Reach(t, actions), 0)))
  {
    hide ServerTakes, ServerSends, PeerTakes, Reach;
    ReachSnoc(t, actions, ServerReceives(0));
    ReachSnoc(t, actions + [ServerReceives(0)], ServerFlushes);
    ReachSnoc(t, actions + [ServerReceives(0)] + [ServerFlushes], PeerReceives);
    assert actions + Round == actions + [ServerReceives(0)] + [ServerFlushes] + [PeerReceives];
  }

  /** Where n rounds lead. */
  ghost predicate AfterRounds(t: Setting, n: nat, x: Fetch)
    requires BlockSize(t.m) > 0
  {
    if n < |All(t)| then Requesting(t, x) && |x.server.sent| == n
    else if n == |All(t)| && !EndsTwice(t) then Closing(t, x)
    else Finished(t, x)
  }

  lemma OneRound(t: Setting, n: nat, x: Fetch)
    requires Granted(t) && BlockSize(t.m) > 0 && AfterRounds(t, n, x)
    ensures AfterRounds(t, n + 1, PeerTakes(t, ServerSends(t, ServerTakes(t, x, 0))))
  {
    hide Requesting, Answering, Delivering, Closing, Finished, IsReadRequest, ServerTakes, ServerSends, PeerTakes, AcksToFinish, All;
    if n < |All(t)| {
      if n == 0 {
        RequestIsAnswered(t, x, 0);
      } else {
        AckIsAnswered(t, x, 0);
      }
      var y := ServerTakes(t, x, 0);
      AnswerIsSent(t, y);
      PacketIsTaken(t, ServerSends(t, y));
    } else {
      if n == |All(t)| && !EndsTwice(t) {
        LastAckMakesClient(t, x, 0);
      } else {
        NothingToTake(t, x, 0);
      }
      var y := ServerTakes(t, x, 0);
      QuietFlush(t, y);
      NothingToRead(t, y);
    }
  }

  /**
   And it gets there: one round for each block, and one more for the option acknowledgement, and the
   receiver has the file, not a round earlier or later; one more and nothing is under way.
   */
  lemma {:induction false} ReadLoopCompletes(t: Setting, n: nat)
    requires Granted(t)
    ensures BlockSize(t.m) > 0
    ensures var x := Reach(t, Rounds(n));
      && AfterRounds(t, n, x)
      && (x.receiver.done <==> n >= |t.file| / BlockSize(t.m) + 1 + (if t.m.Negotiated? then 1 else 0))
      && (x.receiver.done ==> x.receiver.data == t.file)
  {
    hide IsReadRequest, Reach, AfterRounds;
    GrantedFacts(t);
    if n == 0 {
      assert Reach(t, Rounds(0)) == Start(t) by { ReachNothing(t); }
      StartsRequesting(t);
      StartIsAfterNoRounds(t);
    } else {
      ReadLoopCompletes(t, n - 1);
      RoundRuns(t, Rounds(n - 1));
      OneRound(t, n - 1, Reach(t, Rounds(n - 1)));
    }
    DoneAfter(t, n, Reach(t, Rounds(n)));
  }

  lemma ReachNothing(t: Setting)
    ensures Reach(t, []) == Start(t)
  {
  }

  lemma StartIsAfterNoRounds(t: Setting)
    requires BlockSize(t.m) > 0 && Requesting(t, Start(t))
    ensures AfterRounds(t, 0, Start(t))
  {
    hide Requesting;
  }

  lemma DoneAfter(t: Setting, n: nat, x: Fetch)
    requires BlockSize(t.m) > 0 && AfterRounds(t, n, x)
    ensures x.receiver.done <==> n >= |t.file| / BlockSize(t.m) + 1 + (if t.m.Negotiated? then 1 else 0)
    ensures x.receiver.done ==> x.receiver.data == t.file
  {
    hide Serving, Packet, Trigger, AckPacket, InStep;
    LastIsShort(t);
    InStepHolds(x.receiver, t.file, BlockSize(t.m));
  }

  // ---------- What a finished read leaves behind ----------

  /**
   The acknowledgement of the last block reaches a server that has dropped the client, and makes a new one.
   It has nothing to say, and neither passes nor the other peers ever remove it.
   */
  lemma {:induction false} IdleClientStays(listeners: seq<Socket>, evs: seq<Event>, more: seq<Event>, k: Key)
    requires AllSensible(evs + more) && k.port != LOST_PORT && InputsOf(more, k) == []
    requires AllSensible(evs) && var c := ClientOf(Run(listeners, evs).clients, k); c.Some? && Idle(c.value)
    ensures ClientOf(Run(listeners, evs + more).clients, k) == ClientOf(Run(listeners, evs).clients, k)
    decreases |more|
  {
    hide Run, ClientOf, SentTo, KeyOf, FlushVisits, CheckedAt, Idle;
    if more == [] {
      assert evs + more == evs;
    } else {
      var before, e := evs + more[..|more| - 1], more[|more| - 1];
      assert evs + more == before + [e] && (evs + more)[..|before|] == before;
      assert InputsOf(more[..|more| - 1], k) == [];
      assert (evs + more)[|evs + more| - 1] == e;
      SensiblePrefix(evs + more, |before|);
      IdleClientStays(listeners, evs, more[..|more| - 1], k);
      IdleOutlivesEvent(listeners, before, e, k);
    }
  }

  lemma SensiblePrefix(evs: seq<Event>, n: nat)
    requires AllSensible(evs) && n <= |evs|
    ensures AllSensible(evs[..n])
    ensures forall i :: 0 <= i < |evs| ==> Sensible(evs[i])
  {
    hide Sensible;
  }

  lemma IdleOutlivesEvent(listeners: seq<Socket>, evs: seq<Event>, e: Event, k: Key)
    requires AllSensible(evs) && Sensible(e) && k.port != LOST_PORT
    requires e.Datagram? ==> KeyOf(e.fd, e.addr) != k
    requires var c := ClientOf(Run(listeners, evs).clients, k); c.Some? && Idle(c.value)
    ensures AllSensible(evs + [e])
    ensures ClientOf(Run(listeners, evs + [e]).clients, k) == ClientOf(Run(listeners, evs).clients, k)
  {
    hide Run, ClientOf, SentTo, KeyOf, FlushVisits, CheckedAt, QueuedBytes;
    KeySideSnoc(listeners, evs, e, k);
  }
}
