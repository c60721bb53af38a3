/** Write sessions: what the server stores, and a lock-step sender driven by the server's acknowledgements. */
module WriteTransfers {
  import opened Options
  import opened Bytes
  import opened Wire
  import opened Requests
  import opened Sessions
  import opened Reactions
  import opened Clients
  import opened ReadTransfers
  import opened Isolation
  import opened Servers

  /** The block size of a write session; the code takes no other. */
  const BLOCK: nat := 512

  /** A datagram that is a grantable write request. */
  ghost predicate IsWriteRequest(d: seq<Byte>, env: Env) {
    && HasOpcode(d, 2)
    && var q := ParseRequest(Buffer(d));
      !IsMail(q.mode) && PathOf(q.filename, env) !in env.denied && PathOf(q.filename, env) in env.writable
  }

  /** The session has an open file with this content. */
  ghost predicate Writing(s: Session, content: seq<Byte>) {
    s.sendingfile && s.f == WriteFile(content) && s.waiting == 0
  }

  lemma WriteRequestOpens(d: seq<Byte>, env: Env)
    requires IsWriteRequest(d, env)
    ensures var r := React(FreshSession, d, env);
      r.out == [AckPacket(0)] && Writing(r.ses, []) && !r.ses.destroy
  {
    hide AckPacket, IsMail, PathOf, ParseRequest, OnData, OnAck, OnError, OnReadRequest;
  }

  /**
   A fresh client's write request opens a file if and only if its mode is not a spelling of mail and the one
   path it names may be accessed and opened; otherwise one ERROR with the code of the reason is queued.
   */
  lemma WriteRequestIsGrantedExactly(d: seq<Byte>, env: Env, path: Path)
    requires HasOpcode(d, 2) && Names(path, env, ParseRequest(Buffer(d)).filename)
    ensures var r := React(FreshSession, d, env); var q := ParseRequest(Buffer(d));
      var grantable := !SpellsMail(q.mode) && path !in env.denied && path in env.writable;
      && (grantable <==> IsWriteRequest(d, env)) && (grantable <==> r.ses.sendingfile) && (grantable <==> !r.ses.destroy)
      && |r.out| == 1
      && Decode(r.out[0]) == if grantable then Ack(0) else
           Err(if SpellsMail(q.mode) then 4 else if path in env.denied then 7 else 1, env.text)
  {
    hide AckPacket, ErrorPacket, Decode, IsMail, PathOf, ParseRequest, OnData, OnAck, OnError, OnReadRequest, SpellsMail;
    var q := ParseRequest(Buffer(d));
    OnePathIsNamed(path, env, q.filename);
    WordsAreRecognised(q.mode);
    DecodeAck(0);
    DecodeError(4, env.text);
    DecodeError(7, env.text);
    DecodeError(1, env.text);
  }

  lemma DataFields(no: U16, payload: seq<Byte>)
    requires |payload| <= BLOCK
    ensures var d := DataPacket(no, payload);
      HasOpcode(d, 3) && BlockField(d) == no && Payload(d) == payload
  {
    LayoutsAreLiteral(no, payload, [], []);
    assert DataPacket(no, payload)[4..] == payload;
  }

  /** One DATA packet: appended whatever its number is, and acknowledged with that number. */
  lemma DataIsStored(s: Session, content: seq<Byte>, no: U16, payload: seq<Byte>, env: Env)
    requires Writing(s, content) && |payload| <= BLOCK
    ensures var d := DataPacket(no, payload);
      && |d| <= PKTLEN
      && var r := React(s, d, env);
        && r.out == [AckPacket(no)] && Writing(r.ses, content + payload)
        && (r.ses.destroy <==> s.destroy || |payload| < BLOCK)
  {
    hide DataPacket, AckPacket, Payload, BlockField, OnAck, OnError, OnReadRequest, OnWriteRequest, ParseRequest;
    DataFields(no, payload);
  }

  // ---------- The lock-step transfer ----------

  /** `sent` is the number of the last DATA packet sent, 0 for the request; `finished` after the last acknowledgement. */
  datatype Sender = Sender(sent: nat, finished: bool)

  /** One write transfer: the server's side of the peer, the file it closed, the two channels, the sender. */
  datatype Transfer = Transfer(
    server: Alone,
    saved: Option<seq<Byte>>,
    toServer: seq<seq<Byte>>,
    toSender: seq<seq<Byte>>,
    sender: Sender)

  datatype Action =
    | ServerReceives(now: int)
    | ServerFlushes
    | ServerChecks(at: Reading)
    | SenderReceives

  /** What does not change during a transfer. */
  datatype Setting = Setting(src: seq<Byte>, request: seq<Byte>, env: Env, fd: int, addr: Address)

  ghost predicate Granted(t: Setting) {
    IsWriteRequest(t.request, t.env)
  }

  function Blocks(src: seq<Byte>): nat {
    |src| / BLOCK + 1
  }

  function SenderPacket(t: Setting, k: nat): (d: seq<Byte>)
    requires |t.request| <= PKTLEN
    ensures |d| <= PKTLEN
  {
    if k == 0 then t.request
    else
      ShortBlock(t.src, BLOCK, k);
      DataFields(k % 0x1_0000, Block(t.src, BLOCK, k));
      BlockPacket(t.src, BLOCK, k)
  }

  function Start(t: Setting): Transfer {
    Transfer(Alone(None, []), None, [t.request], [], Sender(0, false))
  }

  function ServerTakes(t: Setting, x: Transfer, now: int): Transfer {
    if x.toServer == [] || |x.toServer[0]| > PKTLEN then x
    else x.(server := AloneNext(t.fd, x.server, Got(t.addr, x.toServer[0], t.env, now)), toServer := x.toServer[1..])
  }

  /** SendPackets: queued packets go out in order; a client marked destroy has its file closed and is removed. */
  function ServerSends(t: Setting, x: Transfer): Transfer {
    var after := AloneNext(t.fd, x.server, Flushed);
    var closed := x.server.client.Some? && after.client.None? && x.server.client.value.ses.f.WriteFile?;
    x.(server := after,
       saved := if closed then Some(x.server.client.value.ses.f.content) else x.saved,
       toSender := x.toSender + (if x.server.client.None? then [] else QueuedBytes(x.server.client.value.queue)))
  }

  /** The sender: on the acknowledgement of the block it sent last, the next block, or done after a short one. */
  function SenderTakes(t: Setting, x: Transfer): Transfer
    requires |t.request| <= PKTLEN
  {
    if x.toSender == [] then x
    else
      var rest := x.(toSender := x.toSender[1..]);
      var k := x.sender.sent;
      if x.sender.finished || Decode(x.toSender[0]) != Ack(k % 0x1_0000) then rest
      else if k >= 1 && |Block(t.src, BLOCK, k)| < BLOCK then rest.(sender := Sender(k, true))
      else rest.(sender := Sender(k + 1, false), toServer := x.toServer + [SenderPacket(t, k + 1)])
  }

  function Act(t: Setting, x: Transfer, a: Action): Transfer
    requires |t.request| <= PKTLEN
  {
    match a
    case ServerReceives(now) => ServerTakes(t, x, now)
    case ServerFlushes => ServerSends(t, x)
    case ServerChecks(at) => x.(server := AloneNext(t.fd, x.server, Checked(at)))
    case SenderReceives => SenderTakes(t, x)
  }

  function Reach(t: Setting, actions: seq<Action>): Transfer
    requires |t.request| <= PKTLEN
  {
    if actions == [] then Start(t)
    else Act(t, Reach(t, actions[..|actions| - 1]), actions[|actions| - 1])
  }

  /** Acknowledgements 0 .. n - 1. */
  function AckPackets(n: nat): (r: seq<seq<Byte>>)
    ensures |r| == n
  {
    seq(n, i => AckPacket(i % 0x1_0000))
  }

  lemma AckPacketsSnoc(n: nat)
    ensures AckPackets(n + 1) == AckPackets(n) + [AckPacket(n % 0x1_0000)]
  {
    hide AckPacket;
  }

  /** The server stored the first k blocks and waits. */
  ghost predicate Stored(t: Setting, x: Transfer, k: nat) {
    && x.server.client.Some? && x.saved == None
    && Writing(x.server.client.value.ses, t.src[..Cut(t.src, BLOCK, k)])
  }

  /** A packet of the sender is under way. */
  ghost predicate Sending(t: Setting, x: Transfer)
    requires |t.request| <= PKTLEN
  {
    var k := x.sender.sent;
    && !x.sender.finished && k <= Blocks(t.src)
    && x.toServer == [SenderPacket(t, k)] && x.toSender == []
    && x.server.sent == AckPackets(k)
    && if k == 0 then x.server.client == None && x.saved == None
       else Stored(t, x, k - 1) && !x.server.client.value.ses.destroy && x.server.client.value.queue == []
  }

  /** The server has queued its acknowledgement. */
  ghost predicate Answered(t: Setting, x: Transfer) {
    var k := x.sender.sent;
    && !x.sender.finished && k <= Blocks(t.src)
    && x.toServer == [] && x.toSender == []
    && x.server.sent == AckPackets(k)
    && Stored(t, x, k) && QueuedBytes(x.server.client.value.queue) == [AckPacket(k % 0x1_0000)]
    && (x.server.client.value.ses.destroy <==> k == Blocks(t.src))
  }

  /** The acknowledgement is under way; after the last one the server is done. */
  ghost predicate Acknowledging(t: Setting, x: Transfer) {
    var k := x.sender.sent;
    && !x.sender.finished && k <= Blocks(t.src)
    && x.toServer == [] && x.toSender == [AckPacket(k % 0x1_0000)]
    && x.server.sent == AckPackets(k + 1)
    && if k == Blocks(t.src) then x.server.client == None && x.saved == Some(t.src)
       else Stored(t, x, k) && !x.server.client.value.ses.destroy && x.server.client.value.queue == []
  }

  ghost predicate Finished(t: Setting, x: Transfer) {
    && x.sender == Sender(Blocks(t.src), true)
    && x.toServer == [] && x.toSender == []
    && x.server == Alone(None, AckPackets(Blocks(t.src) + 1)) && x.saved == Some(t.src)
  }

  ghost predicate LockStep(t: Setting, x: Transfer)
    requires |t.request| <= PKTLEN
  {
    Sending(t, x) || Answered(t, x) || Acknowledging(t, x) || Finished(t, x)
  }

  lemma ContentGrows(src: seq<Byte>, k: nat)
    ensures src[..Cut(src, BLOCK, k)] + Block(src, BLOCK, k + 1) == src[..Cut(src, BLOCK, k + 1)]
    ensures src[..Cut(src, BLOCK, 0)] == []
    ensures |Block(src, BLOCK, k + 1)| <= BLOCK
    ensures k < Blocks(src) ==> (|Block(src, BLOCK, k + 1)| < BLOCK <==> k + 1 == Blocks(src))
    ensures k + 1 == Blocks(src) ==> src[..Cut(src, BLOCK, k + 1)] == src
  {
    hide Cut;
    CutGrows(src, BLOCK, k);
    ShortBlock(src, BLOCK, k + 1);
    SlicesJoin(src, Cut(src, BLOCK, k), Cut(src, BLOCK, k + 1));
    if k + 1 == Blocks(src) {
      assert src[..|src|] == src;
    }
  }

  lemma RequestIsAnswered(t: Setting, x: Transfer, now: int)
    requires Granted(t) && Sending(t, x) && x.sender.sent == 0
    ensures Answered(t, ServerTakes(t, x, now)) && ServerTakes(t, x, now).sender == x.sender
  {
    hide React, Deliver, AckPacket, IsWriteRequest, AckPackets, Writing;
    RequestIsShort(t);
    WriteRequestOpens(t.request, t.env);
    var c := NewClient(t.fd, t.addr);
    assert c.ses == FreshSession && QueuedBytes(c.queue) == [];
    DeliverOutput(c, Input(t.request, t.env), now);
    ContentGrows(t.src, 0);
  }

  lemma RequestIsShort(t: Setting)
    requires Granted(t)
    ensures |t.request| <= 516
  {
  }

  lemma BlockIsAnswered(t: Setting, x: Transfer, now: int)
    requires |t.request| <= PKTLEN && Sending(t, x) && x.sender.sent > 0
    ensures Answered(t, ServerTakes(t, x, now)) && ServerTakes(t, x, now).sender == x.sender
  {
    hide React, Deliver, AckPacket, DataPacket, AckPackets, Writing, Cut, Blocks;
    var k, c := x.sender.sent, x.server.client.value;
    var payload := Block(t.src, BLOCK, k);
    ContentGrows(t.src, k - 1);
    DataIsStored(c.ses, t.src[..Cut(t.src, BLOCK, k - 1)], k % 0x1_0000, payload, t.env);
    assert QueuedBytes(c.queue) == [];
    DeliverOutput(c, Input(SenderPacket(t, k), t.env), now);
  }

  lemma AnswerIsSent(t: Setting, x: Transfer)
    requires |t.request| <= PKTLEN && Answered(t, x)
    ensures Acknowledging(t, ServerSends(t, x)) && ServerSends(t, x).sender == x.sender
  {
    hide AckPacket, AckPackets, Cut;
    var k := x.sender.sent;
    AckPacketsSnoc(k);
    if k == Blocks(t.src) {
      ContentGrows(t.src, k - 1);
    }
  }

  lemma AcknowledgementIsTaken(t: Setting, x: Transfer)
    requires |t.request| <= PKTLEN && Acknowledging(t, x)
    ensures x.sender.sent < Blocks(t.src) ==>
      Sending(t, SenderTakes(t, x)) && SenderTakes(t, x).sender.sent == x.sender.sent + 1
    ensures x.sender.sent == Blocks(t.src) ==> Finished(t, SenderTakes(t, x))
  {
    hide AckPacket, AckPackets, Cut, Decode, SenderPacket, Blocks, Writing;
    var k := x.sender.sent;
    DecodeAck(k % 0x1_0000);
    BlocksPositive(t.src);
    if k >= 1 {
      ContentGrows(t.src, k - 1);
    }
  }

  lemma BlocksPositive(src: seq<Byte>)
    ensures Blocks(src) >= 1
  {
  }

  /** Every action keeps the transfer in lock step. */
  lemma ActKeepsLockStep(t: Setting, x: Transfer, a: Action)
    requires Granted(t) && |t.request| <= PKTLEN && LockStep(t, x)
    ensures LockStep(t, Act(t, x, a))
  {
    hide AckPacket, AckPackets, IsWriteRequest, SenderPacket, Deliver, Blocks, Cut, Decode;
    match a
    case ServerReceives(now) =>
      if Sending(t, x) {
        if x.sender.sent == 0 {
          RequestIsAnswered(t, x, now);
        } else {
          BlockIsAnswered(t, x, now);
        }
      }
    case ServerFlushes =>
      if Answered(t, x) {
        AnswerIsSent(t, x);
      } else {
        QuietFlush(t, x);
      }
    case ServerChecks(at) => QuietCheck(t, x, at);
    case SenderReceives =>
      if Acknowledging(t, x) {
        AcknowledgementIsTaken(t, x);
        assert x.sender.sent <= Blocks(t.src);
      }
  }

  lemma QuietFlush(t: Setting, x: Transfer)
    requires |t.request| <= PKTLEN
    requires Sending(t, x) || Acknowledging(t, x) || Finished(t, x)
    ensures ServerSends(t, x) == x
  {
    hide AckPacket, AckPackets, SenderPacket, Blocks, Cut;
    if x.server.client.Some? {
      assert QueuedBytes(x.server.client.value.queue) == [];
      assert x.toSender + [] == x.toSender && x.server.sent + [] == x.server.sent;
      assert Emptied(x.server.client.value) == x.server.client.value;
    }
    assert x.toSender + [] == x.toSender;
  }

  /** The retry pass leaves the transfer alone: nothing is armed. */
  lemma QuietCheck(t: Setting, x: Transfer, at: Reading)
    requires |t.request| <= PKTLEN && LockStep(t, x)
    ensures Act(t, x, ServerChecks(at)) == x
  {
    hide AckPacket, AckPackets, SenderPacket, Blocks, Cut;
  }

  /**
   Write transfer end to end. In every reachable state the open file is a prefix of the source, the
   acknowledgements so far are 0, 1, 2, ... mod 65536, destroy is set exactly when the final block is in,
   and a finished sender means the stored file equals the source.
   */
  lemma {:induction false} WriteTransferIsCorrect(t: Setting, actions: seq<Action>)
    requires Granted(t)
    ensures |t.request| <= PKTLEN && LockStep(t, Reach(t, actions))
    ensures var x := Reach(t, actions);
      && x.server.sent == AckPackets(|x.server.sent|)
      && (x.sender.finished ==> x.saved == Some(t.src))
      && (x.saved.Some? ==> x.saved == Some(t.src))
      && (x.server.client.Some? ==> var s := x.server.client.value.ses;
            s.f.WriteFile? && s.f.content <= t.src && (s.destroy ==> s.f.content == t.src))
    decreases |actions|
  {
    hide LockStep, Act, IsWriteRequest;
    RequestIsShort(t);
    if actions == [] {
      StartsInLockStep(t);
    } else {
      WriteTransferIsCorrect(t, actions[..|actions| - 1]);
      ActKeepsLockStep(t, Reach(t, actions[..|actions| - 1]), actions[|actions| - 1]);
    }
    LockStepMeansCorrect(t, Reach(t, actions));
  }

  lemma StartsInLockStep(t: Setting)
    requires |t.request| <= PKTLEN
    ensures LockStep(t, Start(t))
  {
    assert AckPackets(0) == [];
  }

  lemma LockStepMeansCorrect(t: Setting, x: Transfer)
    requires |t.request| <= PKTLEN && LockStep(t, x)
    ensures x.server.sent == AckPackets(|x.server.sent|)
    ensures x.sender.finished ==> x.saved == Some(t.src)
    ensures x.saved.Some? ==> x.saved == Some(t.src)
    ensures x.server.client.Some? ==> var s := x.server.client.value.ses;
      s.f.WriteFile? && s.f.content <= t.src && (s.destroy ==> s.f.content == t.src)
  {
    hide AckPacket, SenderPacket;
    if Answered(t, x) && x.sender.sent == Blocks(t.src) {
      ContentGrows(t.src, x.sender.sent - 1);
    }
  }

  /** One round: the packet under way is stored, acknowledged, and answered by the next. */
  const Round: seq<Action> := [ServerReceives(0), ServerFlushes, SenderReceives]

  function Rounds(n: nat): seq<Action> {
    if n == 0 then [] else Rounds(n - 1) + Round
  }

  lemma ReachSnoc(t: Setting, actions: seq<Action>, a: Action)
    requires |t.request| <= PKTLEN
    ensures Reach(t, actions + [a]) == Act(t, Reach(t, actions), a)
  {
    hide Act;
    assert (actions + [a])[..|actions|] == actions;
  }

  lemma RoundRuns(t: Setting, actions: seq<Action>)
    requires |t.request| <= PKTLEN
    ensures Reach(t, actions + Round) == SenderTakes(t, ServerSends(t, ServerTakes(t, Reach(t, actions), 0)))
  {
    hide ServerTakes, ServerSends, SenderTakes, Reach;
    ReachSnoc(t, actions, ServerReceives(0));
    ReachSnoc(t, actions + [ServerReceives(0)], ServerFlushes);
    ReachSnoc(t, actions + [ServerReceives(0)] + [ServerFlushes], SenderReceives);
    assert actions + Round == actions + [ServerReceives(0)] + [ServerFlushes] + [SenderReceives];
  }

  /** And the transfer gets there: a round for the request and one for each block finish it. */
  lemma {:induction false} WriteTransferCompletes(t: Setting, n: nat)
    requires Granted(t) && n <= Blocks(t.src) + 1
    ensures |t.request| <= PKTLEN
    ensures var x := Reach(t, Rounds(n));
      if n <= Blocks(t.src) then Sending(t, x) && x.sender.sent == n else Finished(t, x)
  {
    hide Act, IsWriteRequest, ServerTakes, ServerSends, SenderTakes, Finished, Sending, Answered, Acknowledging, Blocks;
    RequestIsShort(t);
    if n == 0 {
      StartsSending(t);
    } else {
      WriteTransferCompletes(t, n - 1);
      var x := Reach(t, Rounds(n - 1));
      RoundRuns(t, Rounds(n - 1));
      if n == 1 {
        RequestIsAnswered(t, x, 0);
      } else {
        BlockIsAnswered(t, x, 0);
      }
      var y := ServerTakes(t, x, 0);
      AnswerIsSent(t, y);
      AcknowledgementIsTaken(t, ServerSends(t, y));
    }
  }

  lemma StartsSending(t: Setting)
    requires |t.request| <= PKTLEN
    ensures Sending(t, Start(t)) && Start(t).sender.sent == 0
  {
    assert AckPackets(0) == [];
  }

  // ---------- Why the channel must be in order ----------

  /** The blocks a channel delivers, by number. */
  type Delivery = ks: seq<nat> | forall i :: 0 <= i < |ks| ==> ks[i] >= 1

  function DeliveredPacket(src: seq<Byte>, k: nat): (d: seq<Byte>)
    requires k >= 1
    ensures |d| <= PKTLEN
  {
    ShortBlock(src, BLOCK, k);
    DataFields(k % 0x1_0000, Block(src, BLOCK, k));
    BlockPacket(src, BLOCK, k)
  }

  /** A request followed by these blocks. */
  function DeliveredInputs(request: seq<Byte>, env: Env, src: seq<Byte>, ks: Delivery): seq<Input> {
    [Input(request, env)] + seq(|ks|, i requires 0 <= i < |ks| => Input(DeliveredPacket(src, ks[i]), env))
  }

  /** The concatenation of the delivered blocks. */
  function Written(src: seq<Byte>, ks: Delivery): seq<Byte> {
    if ks == [] then [] else Written(src, ks[..|ks| - 1]) + Block(src, BLOCK, ks[|ks| - 1])
  }

  /** The server stores whatever arrives, in the order it arrives, without looking at block numbers. */
  lemma {:induction false} ServerStoresArrivals(request: seq<Byte>, env: Env, src: seq<Byte>, ks: Delivery)
    requires IsWriteRequest(request, env)
    ensures Received(DeliveredInputs(request, env, src, ks))
    ensures Writing(Solo(FreshSession, DeliveredInputs(request, env, src, ks)).ses, Written(src, ks))
    decreases |ks|
  {
    hide React, IsWriteRequest, Writing, BlockPacket, Block;
    var h := DeliveredInputs(request, env, src, ks);
    RequestIsShort(Setting(src, request, env, 0, Address(Inet, 0, "")));
    if ks == [] {
      WriteRequestOpens(request, env);
      assert h == [Input(request, env)] && h[..0] == [];
      assert Solo(FreshSession, h[..0]) == Reaction(FreshSession, []);
    } else {
      var before, k := ks[..|ks| - 1], ks[|ks| - 1];
      ServerStoresArrivals(request, env, src, before);
      assert h[..|h| - 1] == DeliveredInputs(request, env, src, before);
      ShortBlock(src, BLOCK, k);
      BlockPacketIs(src, k);
      DataIsStored(Solo(FreshSession, h[..|h| - 1]).ses, Written(src, before), k % 0x1_0000, Block(src, BLOCK, k), env);
    }
  }

  lemma BlockPacketIs(src: seq<Byte>, k: nat)
    requires k >= 1
    ensures DeliveredPacket(src, k) == DataPacket(k % 0x1_0000, Block(src, BLOCK, k))
  {
  }

  ghost predicate InOrder(ks: Delivery) {
    forall i :: 0 <= i < |ks| ==> ks[i] == i + 1
  }

  lemma {:induction false} InOrderWritesPrefix(src: seq<Byte>, ks: Delivery)
    requires InOrder(ks)
    ensures Written(src, ks) == src[..Cut(src, BLOCK, |ks|)]
    decreases |ks|
  {
    hide Cut, Block;
    if ks == [] {
      ContentGrows(src, 0);
    } else {
      InOrderWritesPrefix(src, ks[..|ks| - 1]);
      ContentGrows(src, |ks| - 1);
    }
  }

  lemma {:induction false} WrittenPrefix(src: seq<Byte>, ks: Delivery, n: nat)
    requires n <= |ks|
    ensures Written(src, ks[..n]) <= Written(src, ks)
    decreases |ks|
  {
    if n < |ks| {
      WrittenPrefix(src, ks[..|ks| - 1], n);
      assert ks[..|ks| - 1][..n] == ks[..n];
    } else {
      assert ks[..n] == ks;
    }
  }

  /** A source that tells block i + 1 from every other block: one byte set, at the front of that block. */
  function Marker(i: nat, blocks: nat): (src: seq<Byte>)
    ensures |src| == blocks * BLOCK
  {
    seq(blocks * BLOCK, j => if j == i * BLOCK then 1 else 0)
  }

  lemma MarkerBlock(i: nat, blocks: nat, k: nat)
    requires 1 <= k <= blocks && i < blocks
    ensures Cut(Marker(i, blocks), BLOCK, i) == i * BLOCK < |Marker(i, blocks)|
    ensures |Block(Marker(i, blocks), BLOCK, k)| == BLOCK
    ensures Block(Marker(i, blocks), BLOCK, k)[0] == if k == i + 1 then 1 else 0
  {
  }

  /** The first block out of place leaves a wrong byte in the file of some source. */
  lemma OutOfOrderCorrupts(ks: Delivery, i: nat) returns (src: seq<Byte>)
    requires i < |ks| && ks[i] != i + 1 && InOrder(ks[..i])
    ensures Written(src, ks) != src[..Cut(src, BLOCK, |ks|)]
  {
    hide Block, Marker;
    var blocks := Max(|ks|, ks[i]);
    src := Marker(i, blocks);
    MarkerBlock(i, blocks, ks[i]);
    MarkerBlock(i, blocks, i + 1);
    InOrderWritesPrefix(src, ks[..i]);
    assert ks[..i + 1][..i] == ks[..i];
    var soFar := Written(src, ks[..i + 1]);
    assert soFar == Written(src, ks[..i]) + Block(src, BLOCK, ks[i]);
    assert soFar[i * BLOCK] == 0;
    WrittenPrefix(src, ks, i + 1);
    assert Written(src, ks)[i * BLOCK] == soFar[i * BLOCK];
    MarkedByte(i, blocks);
  }

  lemma MarkedByte(i: nat, blocks: nat)
    requires i < blocks
    ensures i * BLOCK < blocks * BLOCK && Marker(i, blocks)[i * BLOCK] == 1
  {
  }

  /** A delivery is stored correctly for every source if and only if it is in order, without loss or repetition. */
  lemma StoredCorrectlyIffInOrder(ks: Delivery)
    ensures (forall src: seq<Byte> :: Written(src, ks) == src[..Cut(src, BLOCK, |ks|)]) <==> InOrder(ks)
  {
    if InOrder(ks) {
      forall src: seq<Byte>
        ensures Written(src, ks) == src[..Cut(src, BLOCK, |ks|)]
      {
        InOrderWritesPrefix(src, ks);
      }
    } else {
      var i := FirstOutOfPlace(ks);
      var src := OutOfOrderCorrupts(ks, i);
    }
  }

  lemma {:induction false} FirstOutOfPlace(ks: Delivery) returns (i: nat)
    requires !InOrder(ks)
    ensures i < |ks| && ks[i] != i + 1 && InOrder(ks[..i])
    decreases |ks|
  {
    var before: Delivery := ks[..|ks| - 1];
    if InOrder(before) {
      i := |ks| - 1;
      assert forall j :: 0 <= j < |ks| - 1 ==> ks[j] == before[j];
    } else {
      i := FirstOutOfPlace(before);
      assert before[..i] == ks[..i];
    }
  }
}
