/** How many DATA packets make a read unsafe: a peer alone on the server, and the bound over all runs. */
module ReadBound {
  import opened Options
  import opened Bytes
  import opened Wire
  import opened Requests
  import opened Sessions
  import opened Reactions
  import opened Clients
  import opened Servers
  import opened Pools
  import opened ReadTransfers
  import opened Isolation
  import opened ReadSafety

  // ---------- One peer that asks and acknowledges ----------

  datatype Peer = Peer(fd: int, addr: Address, request: seq<Byte>, ack: seq<Byte>, env: Env)

  /** The peer's request and n acknowledgements. */
  function Asking(p: Peer, n: nat): seq<Event> {
    if n == 0 then [Datagram(p.fd, p.addr, p.request, p.env, 0)]
    else Asking(p, n - 1) + [Datagram(p.fd, p.addr, p.ack, p.env, 0)]
  }

  ghost predicate Asks(p: Peer, file: seq<Byte>, m: Mode) {
    IsReadRequest(p.request, p.env, file, m) && IsAck(p.ack) && KeyOf(p.fd, p.addr).port != LOST_PORT
  }

  lemma {:induction false} AskingIsHistory(p: Peer, file: seq<Byte>, m: Mode, n: nat)
    requires Asks(p, file, m)
    ensures AllSensible(Asking(p, n))
    ensures var h := InputsOf(Asking(p, n), KeyOf(p.fd, p.addr)); ReadHistory(h, file, m) && Acks(h[1..]) == n
  {
    hide IsReadRequest, IsAck, IsInert, HeaderFits, KeyOf;
    var evs, k := Asking(p, n), KeyOf(p.fd, p.addr);
    if n == 0 {
      ReadIsSensible(p.request, p.env, file, m);
      assert evs[..0] == [];
      assert InputsOf(evs[..0], k) == [];
      assert InputsOf(evs, k) == [Input(p.request, p.env)];
    } else {
      AskingIsHistory(p, file, m, n - 1);
      AckIsSensible(p.ack);
      assert evs[..|evs| - 1] == Asking(p, n - 1);
      assert InputsOf(evs, k) == InputsOf(Asking(p, n - 1), k) + [Input(p.ack, p.env)];
      HistorySnoc(InputsOf(Asking(p, n - 1), k), Input(p.ack, p.env), file, m);
    }
  }

  lemma HistorySnoc(h: seq<Input>, i: Input, file: seq<Byte>, m: Mode)
    requires ReadHistory(h, file, m) && IsAck(i.d)
    ensures ReadHistory(h + [i], file, m) && Acks((h + [i])[1..]) == Acks(h[1..]) + 1
  {
    hide IsReadRequest, IsAck, IsInert;
    assert (h + [i])[1..] == h[1..] + [i];
    assert (h[1..] + [i])[..|h| - 1] == h[1..];
  }

  lemma AsksFit(p: Peer, file: seq<Byte>, m: Mode)
    requires Asks(p, file, m)
    ensures |p.request| <= PKTLEN && |p.ack| <= PKTLEN
  {
  }

  lemma {:induction false} AskingMakesOneClient(listeners: seq<Socket>, p: Peer, file: seq<Byte>, m: Mode, n: nat)
    requires Asks(p, file, m)
    ensures AllSensible(Asking(p, n))
    ensures var cs := Run(listeners, Asking(p, n)).clients; |cs| == 1 && ClientKey(cs[0]) == KeyOf(p.fd, p.addr)
  {
    hide IsReadRequest, IsAck, Deliver, NewClient, FindClient, ClientKey, KeyOf, InputsOf;
    AskingIsHistory(p, file, m, n);
    var evs := Asking(p, n);
    var before := evs[..|evs| - 1];
    if n == 0 {
      assert before == [] && Run(listeners, before) == Init(listeners);
    } else {
      assert before == Asking(p, n - 1);
      AskingMakesOneClient(listeners, p, file, m, n - 1);
    }
    var v := Run(listeners, before);
    RunsAreKeyed(listeners, before);
    LookupByKey(v.clients, p.fd, p.addr);
    NewClientKey(p.fd, p.addr);
    var (w, i) := Allocate(v, p.fd, p.addr);
    var d := if n == 0 then p.request else p.ack;
    AsksFit(p, file, m);
    DeliverKeepsIdentity(w.clients[i], d, p.env, 0);
    SameIdentityKey(w.clients[i], Deliver(w.clients[i], d, p.env, 0));
  }

  /** A peer alone that asks, acknowledges n times and is flushed has been sent its stream up to that point. */
  lemma AskingIsServed(listeners: seq<Socket>, p: Peer, file: seq<Byte>, m: Mode, n: nat)
    requires Asks(p, file, m) && BlockSize(m) > 0 && n <= AcksToFinish(file, m)
    ensures var evs := Asking(p, n) + [SendPass];
      AllSensible(evs) && SentTo(Run(listeners, evs).wire, KeyOf(p.fd, p.addr)) == Stream(file, m, n)
  {
    hide IsReadRequest, IsAck, Stream, AcksToFinish, ClientOf, SentTo, KeyOf, Pending, InputsOf, Asking, Run, AllSensible,
         ReadHistory, Sensible;
    var k, before := KeyOf(p.fd, p.addr), Asking(p, n);
    AskingIsHistory(p, file, m, n);
    AskingMakesOneClient(listeners, p, file, m, n);
    var acks := ReadSessionInTheCrowd(listeners, before, k, file, m);
    OnlyClientIsFlushed(listeners, before, k);
  }

  /** A flush pass over a single client sends all that was queued for it. */
  lemma OnlyClientIsFlushed(listeners: seq<Socket>, evs: seq<Event>, k: Key)
    requires AllSensible(evs) && k.port != LOST_PORT
    requires var cs := Run(listeners, evs).clients; |cs| == 1 && ClientKey(cs[0]) == k
    ensures AllSensible(evs + [SendPass])
    ensures var v := Run(listeners, evs);
      SentTo(Run(listeners, evs + [SendPass]).wire, k) == SentTo(v.wire, k) + Pending(ClientOf(v.clients, k))
  {
    hide Run, SentTo, ClientKey, QueuedBytes, Emptied;
    KeySideSnoc(listeners, evs, SendPass, k);
  }

  // ---------- The bound ----------

  /**
   One run, one network: if the peer of key k only ever asked for `file` and acknowledged, was sent at
   most n DATA packets, and the network delivered `picks` among what was sent, the receiver is right.
   */
  ghost predicate SafeRun(
      n: nat, listeners: seq<Socket>, evs: seq<Event>, k: Key, file: seq<Byte>, m: Mode, picks: seq<seq<Byte>>)
  {
    AllSensible(evs) && k.port != LOST_PORT && ReadHistory(InputsOf(evs, k), file, m) ==>
      var sent := SentTo(Run(listeners, evs).wire, k);
      DataSent(sent, m) <= n && (forall i :: 0 <= i < |picks| ==> picks[i] in sent) ==>
        Holds(AcceptAll(BlockSize(m), picks), file)
  }

  /** Reading is safe with at most n DATA packets: every run, peer, file, mode and network. */
  ghost predicate SafeWith(n: nat) {
    forall listeners: seq<Socket>, evs: seq<Event>, k: Key, file: seq<Byte>, m: Mode, picks: seq<seq<Byte>> ::
      SafeRun(n, listeners, evs, k, file, m, picks)
  }

  lemma FewPacketsAreSafe(
      n: nat, listeners: seq<Socket>, evs: seq<Event>, k: Key, file: seq<Byte>, m: Mode, picks: seq<seq<Byte>>)
    requires n < 0x1_0000
    ensures SafeRun(n, listeners, evs, k, file, m, picks)
  {
    hide Run, SentTo, ReadHistory, Holds, AcceptAll, InputsOf;
    if AllSensible(evs) && k.port != LOST_PORT && ReadHistory(InputsOf(evs, k), file, m) {
      var sent := SentTo(Run(listeners, evs).wire, k);
      if DataSent(sent, m) <= n && forall i :: 0 <= i < |picks| ==> picks[i] in sent {
        ReadIsSafeOverAnyNetwork(listeners, evs, k, file, m, picks);
      }
    }
  }

  /** 65536 blocks of 8 bytes, then block 1 again: the receiver takes it for block 65537, and it is too much. */
  lemma FirstBlockAgain(file: seq<Byte>) returns (picks: seq<seq<Byte>>)
    requires |file| == 0x8_0000
    ensures !Holds(AcceptAll(8, picks), file)
    ensures forall i :: 0 <= i < |picks| ==> picks[i] in DataPackets(file, 8, 1, 0x1_0000)
  {
    hide BlockPacket, Accept, Block;
    var all := DataPackets(file, 8, 1, 0x1_0000);
    var p := BlockPacket(file, 8, 1);
    picks := all + [p];
    assert all[0] == p;
    InOrderDeliveryCompletes(file, 8, 0x1_0000);
    AcceptAllSnoc(8, all, p);
    AcceptBlock(AcceptAll(8, all), file, 8, 1);
    ShortBlock(file, 8, 1);
    assert |AcceptAll(8, all).data| == 0x8_0000;
  }

  /** A peer that asks for `file` in blocks of 8 bytes. */
  lemma PeerFor(file: seq<Byte>) returns (p: Peer, m: Mode)
    ensures Asks(p, file, m) && m.Negotiated? && m.size == 8
  {
    hide EncodeRequest, IsReadRequest, SpellsMail;
    var name, size := Ascii("f"), Decimal(8);
    var path: Path := [47] + name;
    var env := Env([], false, {path}, map[path := file], {}, {}, []);
    assert Names(path, env, name);
    var d := EncodeRequest(1, name, Ascii("octet"), WithOption(Ascii("blksize"), size));
    ShortRequest();
    EncodedRequestIsGranted(name, Ascii("octet"), 8, env, path);
    p := Peer(0, Address(Inet, 0, ""), d, AckPacket(0), env);
    m := Negotiated(Ascii("blksize"), size, 8);
    AckPacketIsAck(0);
  }

  lemma ShortRequest()
    ensures |EncodeRequest(1, Ascii("f"), Ascii("octet"), WithOption(Ascii("blksize"), Decimal(8)))| <= 516
    ensures NulFree(Ascii("f")) && NulFree(Ascii("octet")) && !SpellsMail(Ascii("octet"))
  {
  }

  /** A run that sends 65536 DATA packets, and a network that misleads the receiver with them. */
  lemma ManyPacketsAreUnsafe(n: nat)
      returns (listeners: seq<Socket>, evs: seq<Event>, k: Key, file: seq<Byte>, m: Mode, picks: seq<seq<Byte>>)
    requires n >= 0x1_0000
    ensures !SafeRun(n, listeners, evs, k, file, m, picks)
  {
    hide IsReadRequest, IsAck, Run, SentTo, Holds, AcceptAll, DataPackets, ReadHistory, InputsOf, KeyOf, OackPacket, Decimal;
    file := Zeros(0x8_0000);
    var p: Peer;
    p, m := PeerFor(file);
    listeners, k := [], KeyOf(p.fd, p.addr);
    evs := Asking(p, 0x1_0000) + [SendPass];
    AskingIsServed(listeners, p, file, m, 0x1_0000);
    AskingIsHistory(p, file, m, 0x1_0000);
    PassIsNoInput(Asking(p, 0x1_0000), k);
    picks := FirstBlockAgain(file);
    var sent := SentTo(Run(listeners, evs).wire, k);
    assert sent == [OackPacket(m.opt, m.param)] + DataPackets(file, 8, 1, 0x1_0000);
    assert AllSensible(evs) && ReadHistory(InputsOf(evs, k), file, m) && DataSent(sent, m) == 0x1_0000;
    assert forall i :: 0 <= i < |picks| ==> picks[i] in sent;
  }

  lemma PassIsNoInput(evs: seq<Event>, k: Key)
    ensures InputsOf(evs + [SendPass], k) == InputsOf(evs, k)
  {
    assert (evs + [SendPass])[..|evs|] == evs;
  }

  /** The bound is exact over all runs of the server: 65535 DATA packets are safe, one more is not. */
  lemma SafetyBoundIsExact(n: nat)
    ensures SafeWith(n) <==> n < 0x1_0000
  {
    hide SafeRun;
    if n < 0x1_0000 {
      forall listeners: seq<Socket>, evs: seq<Event>, k: Key, file: seq<Byte>, m: Mode, picks: seq<seq<Byte>>
        ensures SafeRun(n, listeners, evs, k, file, m, picks)
      {
        FewPacketsAreSafe(n, listeners, evs, k, file, m, picks);
      }
    } else {
      var listeners, evs, k, file, m, picks := ManyPacketsAreUnsafe(n);
    }
  }
}
