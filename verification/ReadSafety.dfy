/** Read sessions end to end: inside the crowd, and over a network that loses, duplicates and reorders. */
module ReadSafety {
  import opened Options
  import opened Bytes
  import opened Wire
  import opened Requests
  import opened Sessions
  import opened Clients
  import opened Servers
  import opened Pools
  import opened ReadTransfers
  import opened Isolation

  // ---------- The read session of one peer ----------

  /** A client that was allocated for stray acknowledgements and has nothing to say. */
  ghost predicate Idle(c: ClientState) {
    !c.ses.sendingfile && !c.ses.destroy && c.ses.waiting == 0 && c.queue == []
  }

  /** The session that processed `h` is live, and sent and queued exactly what the solo session put out. */
  ghost predicate Live(a: Alone, h: seq<Input>)
    requires Received(h)
  {
    && a.client.Some?
    && a.client.value.ses == Solo(FreshSession, h).ses
    && a.sent + QueuedBytes(a.client.value.queue) == Solo(FreshSession, h).out
  }

  /** The session ended after the first m datagrams; everything it queued was sent. */
  ghost predicate Over(a: Alone, h: seq<Input>, m: nat)
    requires Received(h)
  {
    && 1 <= m <= |h|
    && a.sent == Solo(FreshSession, h[..m]).out
    && Solo(FreshSession, h[..m]).ses.destroy
    && (a.client.Some? ==> Idle(a.client.value))
  }

  ghost predicate ReadHistory(h: seq<Input>, file: seq<Byte>, m: Mode) {
    h != [] && IsReadRequest(h[0].d, h[0].env, file, m) && AcksOnly(h[1..])
  }

  lemma SoloSnoc(s: Session, h: seq<Input>, i: Input)
    requires Received(h) && |i.d| <= PKTLEN
    ensures Received(h + [i])
    ensures var before := Solo(s, h); var r := React(before.ses, i.d, i.env);
      Solo(s, h + [i]) == Reaction(r.ses, before.out + r.out)
  {
    assert (h + [i])[..|h|] == h;
  }

  /** A live session takes one more datagram. */
  lemma LiveGets(fd: int, a: Alone, h: seq<Input>, e: Step)
    requires Received(h) && e.Got? && StepFits(e)
    requires Live(a, h) || (h == [] && a == Alone(None, []))
    ensures Received(h + [Input(e.d, e.env)]) && Live(AloneNext(fd, a, e), h + [Input(e.d, e.env)])
  {
    hide React, Deliver, QueuedBytes, Solo;
    var i := Input(e.d, e.env);
    SoloSnoc(FreshSession, h, i);
    if a.client.None? {
      SoloOfNothing();
      NothingQueuedYet(fd, e.addr);
      DeliverOutput(NewClient(fd, e.addr), i, e.now);
    } else {
      DeliverOutput(a.client.value, i, e.now);
    }
  }

  lemma SoloOfNothing()
    ensures Solo(FreshSession, []) == Reaction(FreshSession, [])
  {
  }

  lemma NothingQueuedYet(fd: int, addr: Address)
    ensures QueuedBytes(NewClient(fd, addr).queue) == [] && NewClient(fd, addr).ses == FreshSession
    ensures NewClient(fd, addr).queue == []
  {
  }

  lemma IdleStaysIdle(s: Session, d: seq<Byte>, env: Env)
    requires (IsAck(d) || IsInert(d)) && !s.sendingfile && !s.destroy && s.waiting == 0
    ensures var r := React(s, d, env); r.out == [] && !r.ses.sendingfile && !r.ses.destroy && r.ses.waiting == 0
  {
    hide OnData, OnError, OnWriteRequest, OnReadRequest, ParseRequest;
  }

  /** After the session is over, stray acknowledgements only produce idle clients. */
  lemma OverGets(fd: int, a: Alone, h: seq<Input>, m: nat, e: Step)
    requires Received(h) && Over(a, h, m) && e.Got? && (IsAck(e.d) || IsInert(e.d))
    ensures StepFits(e) && Received(h + [Input(e.d, e.env)]) && Over(AloneNext(fd, a, e), h + [Input(e.d, e.env)], m)
  {
    hide React, Deliver, QueuedBytes, Solo;
    assert (h + [Input(e.d, e.env)])[..m] == h[..m];
    NothingQueuedYet(fd, e.addr);
    var c := if a.client.None? then NewClient(fd, e.addr) else a.client.value;
    IdleStaysIdle(c.ses, e.d, e.env);
    DeliverOutput(c, Input(e.d, e.env), e.now);
  }

  /** Passes move packets from the queue to the wire, or end the session; they change nothing else. */
  lemma PassKeeps(fd: int, a: Alone, h: seq<Input>, m: nat, e: Step)
    requires Received(h) && h != [] && !e.Got?
    requires Live(a, h) || Over(a, h, m)
    ensures Live(AloneNext(fd, a, e), h) || Over(AloneNext(fd, a, e), h, if Live(a, h) then |h| else m)
  {
    hide React, Solo;
    SoloIsSound(FreshSession, h);
    assert h[..|h|] == h;
    if a.client.Some? {
      var c := a.client.value;
      assert c.queue == [] ==> a.sent + QueuedBytes(c.queue) == a.sent;
      assert QueuedBytes(Emptied(c).queue) == [];
    }
  }

  /** A peer alone, sending one read request and then acknowledgements and noise. */
  lemma {:induction false} AloneReads(fd: int, es: seq<Step>, file: seq<Byte>, m: Mode) returns (n: nat)
    requires StepsFit(es)
    requires InputsIn(es) == [] || ReadHistory(InputsIn(es), file, m)
    ensures var a := AloneRun(fd, es); var h := InputsIn(es);
      if h == [] then a == Alone(None, []) else Live(a, h) || Over(a, h, n)
    decreases |es|
  {
    hide React, Solo, Live, Over, IsReadRequest, AloneNext;
    n := 0;
    if es == [] {
    } else {
      var before, e := es[..|es| - 1], es[|es| - 1];
      var a, h, h' := AloneRun(fd, before), InputsIn(before), InputsIn(es);
      if e.Got? {
        assert h' == h + [Input(e.d, e.env)];
        if h != [] {
          assert h[0] == h'[0] && h[1..] == h'[1..][..|h| - 1];
        }
        n := AloneReads(fd, before, file, m);
        if h == [] || Live(a, h) {
          LiveGets(fd, a, h, e);
        } else {
          assert h'[1..][|h| - 1] == Input(e.d, e.env);
          OverGets(fd, a, h, n, e);
        }
      } else {
        assert h' == h + [] == h;
        n := AloneReads(fd, before, file, m);
        if h == [] {
          EmptyPass(fd, e);
        } else {
          PassKeeps(fd, a, h, n, e);
          n := if Live(a, h) then |h| else n;
        }
      }
    }
  }

  lemma EmptyPass(fd: int, e: Step)
    requires !e.Got?
    ensures AloneNext(fd, Alone(None, []), e) == Alone(None, [])
  {
  }

  /** Acknowledgements in a history, counted from the front. */
  lemma {:induction false} AcksPrefix(h: seq<Input>, m: nat)
    requires m <= |h|
    ensures Acks(h[..m]) <= Acks(h)
    decreases |h|
  {
    if m < |h| {
      assert h[..|h| - 1][..m] == h[..m];
      AcksPrefix(h[..|h| - 1], m);
    } else {
      assert h[..m] == h;
    }
  }

  /** What a peer's client still has queued. */
  function Pending(c: Option<ClientState>): seq<seq<Byte>> {
    if c.None? then [] else QueuedBytes(c.value.queue)
  }

  /** Is the peer's client still sending a file? */
  predicate StillSending(c: Option<ClientState>) {
    c.Some? && c.value.ses.sendingfile
  }

  /**
   In any run of the server, among any other traffic: what was sent to a reading peer followed by what
   is queued for it is the stream for the number of its own acknowledgements that its session processed.
   That is all of them while the session lasts, and enough to finish the file once it is over.
   */
  lemma ReadSessionInTheCrowd(listeners: seq<Socket>, evs: seq<Event>, k: Key, file: seq<Byte>, m: Mode) returns (n: nat)
    requires AllSensible(evs) && k.port != LOST_PORT && ReadHistory(InputsOf(evs, k), file, m)
    ensures var v := Run(listeners, evs); var c := ClientOf(v.clients, k); var acks := Acks(InputsOf(evs, k)[1..]);
      && n <= acks && BlockSize(m) > 0
      && SentTo(v.wire, k) + Pending(c) == Stream(file, m, n)
      && (StillSending(c) ==> n == acks)
      && (!StillSending(c) ==> n >= AcksToFinish(file, m))
  {
    hide Run, ClientOf, SentTo, Stream, Solo, AcksToFinish, IsReadRequest, QueuedBytes;
    var es, h := StepsOf(listeners, evs, k), InputsOf(evs, k);
    SessionsAreIsolated(listeners, evs, k);
    StepsCarryOwnInputs(listeners, evs, k);
    var a := AloneRun(k.fd, es);
    var p := AloneReads(k.fd, es, file, m);
    ReadStreamIsExact(h, file, m);
    if Live(a, h) {
      n := Acks(h[1..]);
      LiveIsSending(h, file, m);
    } else {
      n := OverMeansFinished(a, h, p, file, m);
    }
  }

  lemma OverMeansFinished(a: Alone, h: seq<Input>, p: nat, file: seq<Byte>, m: Mode) returns (n: nat)
    requires Received(h) && ReadHistory(h, file, m) && Over(a, h, p)
    ensures n <= Acks(h[1..]) && BlockSize(m) > 0 && n >= AcksToFinish(file, m)
    ensures a.sent + Pending(a.client) == Stream(file, m, n) && !StillSending(a.client)
  {
    hide Stream, Solo, AcksToFinish, IsReadRequest, QueuedBytes, Acks;
    var h' := h[..p];
    assert h'[0] == h[0] && h'[1..] == h[1..][..p - 1];
    AcksPrefix(h[1..], p - 1);
    ReadStreamIsExact(h', file, m);
    n := Acks(h'[1..]);
    PendingOfIdle(a.client);
    assert a.sent + [] == a.sent;
  }

  lemma PendingOfIdle(c: Option<ClientState>)
    requires c.Some? ==> Idle(c.value)
    ensures Pending(c) == [] && !StillSending(c)
  {
  }

  lemma LiveIsSending(h: seq<Input>, file: seq<Byte>, m: Mode)
    requires ReadHistory(h, file, m)
    ensures Received(h) && Solo(FreshSession, h).ses.sendingfile
  {
    hide IsReadRequest, React;
    RequestFits(h[0].d, h[0].env, file, m);
    RequestOpens(h[0].d, h[0].env, file, m);
    AcksOnlyIsReceived(h[1..]);
    ReceivedCons(h);
    SoloCons(FreshSession, h);
    AcksSendBlocks(React(FreshSession, h[0].d, h[0].env).ses, h[1..], file, BlockSize(m), BlocksInOpening(m));
  }

  // ---------- The port that has no session ----------

  /** Every datagram from port 32768 makes a client of its own. */
  lemma LostPortAllocates(v: Srv, fd: int, addr: Address, d: seq<Byte>, env: Env, now: int)
    requires Keyed(v.clients) && !HasSession(addr) && |d| <= PKTLEN
    ensures Receive(v, fd, addr, d, env, now).clients == v.clients + [Deliver(NewClient(fd, addr), d, env, now)]
  {
    hide Deliver, FindClient, NewClient, SamePort;
    LookupIsExact(v.clients, fd, addr);
  }

  lemma RunOnce(listeners: seq<Socket>, evs: seq<Event>, e: Event)
    requires AllSensible(evs) && Sensible(e)
    ensures AllSensible(evs + [e]) && Run(listeners, evs + [e]) == Next(Run(listeners, evs), e)
  {
    hide Next;
    assert (evs + [e])[..|evs|] == evs;
  }

  /**
   Port 32768 is excluded for a reason: its acknowledgements never find its client, so a granted read
   from it gets the opening packets and nothing more, however many acknowledgements follow.
   */
  lemma {:induction false} LostPortNeverAdvances(
      listeners: seq<Socket>, fd: int, addr: Address, d: seq<Byte>, env: Env, now: int, acks: seq<Event>,
      file: seq<Byte>, m: Mode)
    requires !HasSession(addr) && IsReadRequest(d, env, file, m)
    requires forall i :: 0 <= i < |acks| ==> acks[i].Datagram? && acks[i].fd == fd && acks[i].addr == addr && IsAck(acks[i].d)
    ensures AllSensible([Datagram(fd, addr, d, env, now)] + acks)
    ensures var v := Run(listeners, [Datagram(fd, addr, d, env, now)] + acks);
      && |v.clients| == 1 + |acks|
      && QueuedBytes(v.clients[0].queue) == Opening(file, m)
      && forall i :: 1 <= i < |v.clients| ==> v.clients[i].queue == []
    decreases |acks|
  {
    hide React, Opening, IsReadRequest, IsAck, FindClient, Deliver, Receive, QueuedBytes, NewClient, Run, Sensible, HasSession;
    var first := Datagram(fd, addr, d, env, now);
    RequestFits(d, env, file, m);
    ReadIsSensible(d, env, file, m);
    NothingQueuedYet(fd, addr);
    var before := if acks == [] then [] else [first] + acks[..|acks| - 1];
    var e := if acks == [] then first else acks[|acks| - 1];
    assert [first] + acks == before + [e];
    if acks == [] {
      assert Sensible(first) by { SensibleDatagram(first); }
      assert Run(listeners, []).clients == [] by { RunOfNothing(listeners); }
      RequestOpens(d, env, file, m);
    } else {
      LostPortNeverAdvances(listeners, fd, addr, d, env, now, acks[..|acks| - 1], file, m);
      AckIsSensible(e.d);
      SensibleDatagram(e);
      IdleStaysIdle(FreshSession, e.d, e.env);
    }
    RunOnce(listeners, before, e);
    RunsAreKeyed(listeners, before);
    LostPortAllocates(Run(listeners, before), fd, addr, e.d, e.env, e.now);
    DeliverOutput(NewClient(fd, addr), Input(e.d, e.env), e.now);
  }

  lemma SensibleDatagram(e: Event)
    requires e.Datagram? && HeaderFits(true, e.d)
    ensures Sensible(e) && |e.d| <= PKTLEN
  {
  }

  lemma RunOfNothing(listeners: seq<Socket>)
    ensures Run(listeners, []) == Init(listeners)
  {
  }

  lemma ReadIsSensible(d: seq<Byte>, env: Env, file: seq<Byte>, m: Mode)
    requires IsReadRequest(d, env, file, m)
    ensures HeaderFits(true, d)
  {
  }

  lemma AckIsSensible(d: seq<Byte>)
    requires IsAck(d)
    ensures HeaderFits(true, d)
  {
  }

  // ---------- The receiver ----------

  /** A peer that accepts only the next block number, and stops at a short block. */
  datatype Receiver = Receiver(data: seq<Byte>, accepted: nat, done: bool)

  function Accept(r: Receiver, b: nat, p: seq<Byte>): Receiver {
    match Decode(p)
    case Data(blockno, payload) =>
      if !r.done && blockno == (r.accepted + 1) % 0x1_0000 then
        Receiver(r.data + payload, r.accepted + 1, |payload| < b)
      else r
    case _ => r
  }

  function AcceptAll(b: nat, picks: seq<seq<Byte>>): Receiver {
    if picks == [] then Receiver([], 0, false)
    else Accept(AcceptAll(b, picks[..|picks| - 1]), b, picks[|picks| - 1])
  }

  /** The receiver holds a prefix of the file, and all of it when it stopped. */
  ghost predicate Holds(r: Receiver, file: seq<Byte>) {
    r.data <= file && (r.done ==> r.data == file)
  }

  lemma AcceptBlock(r: Receiver, file: seq<Byte>, b: nat, k: nat)
    requires k >= 1
    ensures Accept(r, b, BlockPacket(file, b, k)) ==
      if !r.done && k % 0x1_0000 == (r.accepted + 1) % 0x1_0000
      then Receiver(r.data + Block(file, b, k), r.accepted + 1, |Block(file, b, k)| < b) else r
  {
    hide DataPacket, Decode;
    DecodeData(k % 0x1_0000, Block(file, b, k));
  }

  /** A receiver that accepted `accepted` blocks in order. */
  ghost predicate InStep(r: Receiver, file: seq<Byte>, b: nat) {
    r.data == file[..Cut(file, b, r.accepted)] && (r.done ==> Cut(file, b, r.accepted) == |file|)
  }

  lemma InStepHolds(r: Receiver, file: seq<Byte>, b: nat)
    requires InStep(r, file, b)
    ensures Holds(r, file)
  {
    assert file[..|file|] == file;
  }

  lemma NextBlockKeepsStep(r: Receiver, file: seq<Byte>, b: nat)
    requires InStep(r, file, b) && b > 0
    ensures InStep(Receiver(r.data + Block(file, b, r.accepted + 1), r.accepted + 1, |Block(file, b, r.accepted + 1)| < b), file, b)
  {
    hide Cut;
    CutGrows(file, b, r.accepted);
    ShortBlock(file, b, r.accepted + 1);
    SlicesJoin(file, Cut(file, b, r.accepted), Cut(file, b, r.accepted + 1));
  }

  lemma NumbersAreUnique(k: nat, next: nat)
    requires 1 <= k < 0x1_0000 && 1 <= next <= 0x1_0000 && k % 0x1_0000 == next % 0x1_0000
    ensures k == next
  {
  }

  /** A packet of the read stream that is no DATA packet, or DATA packet number k <= n. */
  ghost predicate FromStream(p: seq<Byte>, file: seq<Byte>, b: nat, n: nat) {
    !Decode(p).Data? || exists k :: 1 <= k <= n && p == BlockPacket(file, b, k)
  }

  /** Whatever is picked from fewer than 65536 DATA packets, in whatever order and however often. */
  lemma {:induction false} PicksAreSafe(picks: seq<seq<Byte>>, file: seq<Byte>, b: nat, n: nat)
    requires b > 0 && n < 0x1_0000
    requires forall i :: 0 <= i < |picks| ==> FromStream(picks[i], file, b, n)
    ensures var r := AcceptAll(b, picks); InStep(r, file, b) && r.accepted <= n
    decreases |picks|
  {
    hide Decode, BlockPacket, InStep;
    if picks == [] {
      NothingAccepted(file, b);
    } else {
      var before, p := picks[..|picks| - 1], picks[|picks| - 1];
      PicksAreSafe(before, file, b, n);
      var r := AcceptAll(b, before);
      assert FromStream(p, file, b, n);
      if Decode(p).Data? {
        var k :| 1 <= k <= n && p == BlockPacket(file, b, k);
        AcceptBlock(r, file, b, k);
        if !r.done && k % 0x1_0000 == (r.accepted + 1) % 0x1_0000 {
          NumbersAreUnique(k, r.accepted + 1);
          NextBlockKeepsStep(r, file, b);
        }
      }
    }
  }

  lemma NothingAccepted(file: seq<Byte>, b: nat)
    ensures InStep(Receiver([], 0, false), file, b)
  {
    CutGrows(file, b, 0);
  }

  // ---------- Safety over any network ----------

  /** DATA packets among what was sent to a reading peer. */
  function DataSent(sent: seq<seq<Byte>>, m: Mode): int {
    |sent| - (if m.Negotiated? then 1 else 0)
  }

  lemma StreamPackets(file: seq<Byte>, m: Mode, n: nat, sent: seq<seq<Byte>>, i: nat)
    requires sent <= Stream(file, m, n) && i < |sent|
    requires m.Negotiated? ==> NulFree(m.opt)
    ensures FromStream(sent[i], file, BlockSize(m), if DataSent(sent, m) < 0 then 0 else DataSent(sent, m))
  {
    hide BlockPacket, OackPacket, Decode;
    assert sent[i] == Stream(file, m, n)[i];
    match m
    case Default =>
      assert sent[i] == BlockPacket(file, 512, i + 1);
    case Negotiated(opt, param, size) =>
      if i == 0 {
        DecodeQueuedOack(opt, param);
      } else {
        assert sent[i] == BlockPacket(file, size, i);
      }
  }

  /**
   Read safety. The server runs any traffic; one peer sent one read request and any acknowledgements and
   noise; the network delivers to it any packets that were sent to it, lost, repeated and reordered at
   will. As long as fewer than 65536 DATA packets were sent, a receiver that accepts only the next block
   number holds a prefix of the file, and exactly the file once it accepted a short block.
   */
  lemma ReadIsSafeOverAnyNetwork(
      listeners: seq<Socket>, evs: seq<Event>, k: Key, file: seq<Byte>, m: Mode, picks: seq<seq<Byte>>)
    requires AllSensible(evs) && k.port != LOST_PORT && ReadHistory(InputsOf(evs, k), file, m)
    requires var sent := SentTo(Run(listeners, evs).wire, k);
      DataSent(sent, m) < 0x1_0000 && forall i :: 0 <= i < |picks| ==> picks[i] in sent
    ensures Holds(AcceptAll(BlockSize(m), picks), file)
  {
    hide Run, ClientOf, SentTo, Stream, InStep, Holds, FromStream, IsReadRequest, Decode;
    var h := InputsOf(evs, k);
    var n := ReadSessionInTheCrowd(listeners, evs, k, file, m);
    var sent := SentTo(Run(listeners, evs).wire, k);
    var count := if DataSent(sent, m) < 0 then 0 else DataSent(sent, m);
    OptionIsString(h[0].d, h[0].env, file, m);
    forall i | 0 <= i < |picks|
      ensures FromStream(picks[i], file, BlockSize(m), count)
    {
      assert picks[i] in sent;
      var j :| 0 <= j < |sent| && sent[j] == picks[i];
      StreamPackets(file, m, n, sent, j);
    }
    PicksAreSafe(picks, file, BlockSize(m), count);
    InStepHolds(AcceptAll(BlockSize(m), picks), file, BlockSize(m));
  }

  lemma OptionIsString(d: seq<Byte>, env: Env, file: seq<Byte>, m: Mode)
    requires IsReadRequest(d, env, file, m)
    ensures m.Negotiated? ==> NulFree(m.opt)
  {
    hide IsMail, IsBlksize, IsTsize, Strtol, PathOf;
    OptionHasNoNul(Buffer(d));
  }

  // ---------- In-order delivery ----------

  lemma {:induction false} AcceptAllSnoc(b: nat, picks: seq<seq<Byte>>, p: seq<Byte>)
    ensures AcceptAll(b, picks + [p]) == Accept(AcceptAll(b, picks), b, p)
  {
    assert (picks + [p])[..|picks|] == picks;
  }

  /** A network that loses nothing completes the transfer, however many blocks there are. */
  lemma {:induction false} InOrderDeliveryCompletes(file: seq<Byte>, b: nat, n: nat)
    requires b > 0 && n <= |file| / b + 1
    ensures var r := AcceptAll(b, DataPackets(file, b, 1, n));
      InStep(r, file, b) && r.accepted == n && (r.done <==> n == |file| / b + 1)
  {
    hide BlockPacket, InStep, Accept, Block;
    if n == 0 {
      NothingAccepted(file, b);
    } else {
      InOrderDeliveryCompletes(file, b, n - 1);
      DataPacketsSnoc(file, b, 1, n - 1);
      var before := DataPackets(file, b, 1, n - 1);
      AcceptAllSnoc(b, before, BlockPacket(file, b, n));
      AcceptBlock(AcceptAll(b, before), file, b, n);
      NextBlockKeepsStep(AcceptAll(b, before), file, b);
      ShortBlock(file, b, n);
    }
  }
}
