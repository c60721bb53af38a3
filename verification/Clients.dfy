/** client_t and the functions of src/process.c, src/packet.c and src/socket.c that update one client. */
module Clients {
  import opened Bytes
  import opened Wire
  import opened Requests
  import opened Sessions
  import opened Growth

  datatype Family = Inet | Inet6 | OtherFamily

  /** A peer address; `text` is what GetAddress prints for it. */
  datatype Address = Address(family: Family, port: U16, text: string)

  /** socket_t: the descriptor, the peer or bound address and the address text. */
  datatype Socket = Socket(fd: int, addr: Address, bindaddr: string)

  /** GetPort returns a short; -1 when the family is neither IPv4 nor IPv6. */
  function GetPort(a: Address): (r: int)
    ensures -0x8000 <= r < 0x8000
  {
    if a.family == OtherFamily then -1 else ToShort(a.port)
  }

  /** Two addresses with the same port; an address that is neither IPv4 nor IPv6 stands for port 65535. */
  predicate SamePort(a: Address, b: Address) {
    if a.family == OtherFamily then b.family == OtherFamily || b.port == 65535
    else if b.family == OtherFamily then a.port == 65535
    else a.port == b.port
  }

  /** The transfer ID AddClient stores: the negated port, converted to short. */
  function TidOf(a: Address): int {
    ToShort(-GetPort(a))
  }

  /** Everything the server keeps about one client, as a value. */
  datatype ClientState = ClientState(
    s: Socket,
    tid: int,
    ses: Session,
    queue: seq<Queued>,
    capacity: nat,
    nextresend: int)

  /** A client just allocated for a peer. */
  function NewClient(fd: int, addr: Address): ClientState {
    ClientState(Socket(fd, addr, addr.text), TidOf(addr), FreshSession, [], 0, 0)
  }

  /** The queue's capacity after QueuePacket's reserve and push. */
  function QueueCapacity(length: nat, capacity: nat): nat {
    QueueOnce(Usage(length, capacity, 0, 0)).capacity
  }

  /** QueuePacket: fresh packets are also remembered as lastpacket. */
  function Enqueue(c: ClientState, p: seq<Byte>, mark: nat, now: int): ClientState {
    c.(queue := c.queue + [Queued(p, mark)],
       capacity := QueueCapacity(|c.queue|, c.capacity),
       ses := if mark != 2 then c.ses.(lastpacket := Queued(p, mark)) else c.ses,
       nextresend := now + 5)
  }

  function EnqueueAll(c: ClientState, ps: seq<seq<Byte>>, now: int): ClientState {
    if ps == [] then c
    else Enqueue(EnqueueAll(c, ps[..|ps| - 1], now), ps[|ps| - 1], 1, now)
  }

  /** The client after a reaction: its packets queued in order, its transfer state replaced. */
  function Apply(c: ClientState, r: Reaction, now: int): ClientState {
    EnqueueAll(c, r.out, now).(ses := r.ses)
  }

  /** ProcessPacket, on the whole client. */
  function Deliver(c: ClientState, d: seq<Byte>, env: Env, now: int): ClientState
    requires |d| <= PKTLEN
  {
    Apply(c, React(c.ses, d, env), now)
  }

  lemma NothingQueued(c: ClientState, now: int)
    ensures EnqueueAll(c, [], now) == c
  {
  }

  lemma ApplyEmit(c: ClientState, r: Reaction, p: seq<Byte>, now: int)
    ensures Enqueue(Apply(c, r, now), p, 1, now) == Apply(c, Emit(r, p), now)
  {
    assert Emit(r, p).out[..|Emit(r, p).out| - 1] == r.out;
  }

  /** Queueing does not look at the transfer state. */
  lemma {:induction false} EnqueueAllIgnoresSes(c: ClientState, ses: Session, ses': Session, ps: seq<seq<Byte>>, now: int)
    ensures EnqueueAll(c.(ses := ses), ps, now).(ses := ses') == EnqueueAll(c, ps, now).(ses := ses')
  {
    if ps != [] {
      EnqueueAllIgnoresSes(c, ses, ses', ps[..|ps| - 1], now);
    }
  }

  function MarkFresh(ps: seq<seq<Byte>>): seq<Queued> {
    seq(|ps|, i requires 0 <= i < |ps| => Queued(ps[i], 1))
  }

  /** Processing appends to the queue and touches nothing else outside the transfer state. */
  lemma {:induction false} EnqueueAllAppends(c: ClientState, ps: seq<seq<Byte>>, now: int)
    ensures var c' := EnqueueAll(c, ps, now);
      && c'.s == c.s && c'.tid == c.tid && c'.queue == c.queue + MarkFresh(ps)
      && (|c.queue| <= c.capacity ==> |c'.queue| <= c'.capacity)
      && c'.nextresend == if ps == [] then c.nextresend else now + 5
  {
    if ps != [] {
      EnqueueAllAppends(c, ps[..|ps| - 1], now);
      assert MarkFresh(ps) == MarkFresh(ps[..|ps| - 1]) + [Queued(ps[|ps| - 1], 1)];
    }
  }

  /** A datagram whose length the code may subtract the header from. */
  predicate HeaderFits(sendingfile: bool, d: seq<Byte>) {
    |d| <= PKTLEN && (sendingfile && |d| <= MAX_PACKET_SIZE && GetU16(Buffer(d)) == PACKET_DATA ==> |d| >= 4)
  }

  class Client {
    var s: Socket
    var tid: int
    var currentblockno: U16
    var actualblockno: U64
    var waiting: nat
    var sendingfile: bool
    var destroy: bool
    var nextresend: int
    var lastpacket: Queued
    var packetqueue: seq<Queued>
    var queuecapacity: nat
    var f: FileHandle
    var blksize: nat

    function Ses(): Session
      reads this
    {
      Session(sendingfile, destroy, currentblockno, actualblockno, waiting, f, blksize, lastpacket)
    }

    function State(): ClientState
      reads this
    {
      ClientState(s, tid, Ses(), packetqueue, queuecapacity, nextresend)
    }

    /** nmalloc zeroes the client; FindOrAllocateClient and AddClient fill in the rest. */
    constructor (fd: int, addr: Address)
      ensures State() == NewClient(fd, addr)
    {
      s := Socket(fd, addr, addr.text);
      currentblockno, actualblockno, waiting := 0, 0, 0;
      sendingfile, destroy, nextresend := false, false, 0;
      lastpacket, packetqueue, queuecapacity := NoPacket, [], 0;
      f := NoFile;
      tid := ToShort(-GetPort(addr));
      blksize := 512;
    }

    // ---------- src/socket.c, src/packet.c ----------

    method QueuePacket(p: seq<Byte>, mark: nat, now: int)
      modifies this
      ensures State() == Enqueue(old(State()), p, mark, now)
    {
      if |packetqueue| + 1 >= queuecapacity {
        queuecapacity := ReservedCapacity(queuecapacity, |packetqueue| * 2);
      }
      queuecapacity := ExpandedCapacity(|packetqueue|, queuecapacity);
      packetqueue := packetqueue + [Queued(p, mark)];
      if mark != 2 {
        lastpacket := Queued(p, mark);
      }
      nextresend := now + 5;
    }

    method SendData(data: seq<Byte>, now: int)
      modifies this
      ensures State() == Enqueue(old(State()), DataPacket(old(currentblockno), data), 1, now)
    {
      var p := BuildData(currentblockno, data);
      QueuePacket(p[..], 1, now);
    }

    method Acknowledge(blockno: U16, now: int)
      modifies this
      ensures State() == Enqueue(old(State()), AckPacket(blockno), 1, now)
    {
      var p := BuildAck(blockno);
      QueuePacket(p[..], 1, now);
    }

    method Error(errnum: U16, text: ErrText, now: int)
      modifies this
      ensures var queued := Enqueue(old(State()), ErrorPacket(errnum, text), 1, now);
        State() == queued.(ses := queued.ses.(destroy := true))
    {
      var p := BuildError(errnum, text);
      QueuePacket(p[..], 1, now);
      destroy := true;
    }

    method OptionAcknowledge(option: seq<Byte>, param: seq<Byte>, now: int)
      modifies this
      ensures State() == Enqueue(old(State()), OackPacket(option, param), 1, now)
    {
      var p := BuildOack(option, param);
      QueuePacket(p[..], 1, now);
    }

    // ---------- src/process.c ----------

    method ProcessPacket(p: array<Byte>, len: nat, env: Env, now: int)
      requires len <= PKTLEN == p.Length && p[..] == Buffer(p[..len])
      requires HeaderFits(sendingfile, p[..len])
      modifies this
      ensures State() == Deliver(old(State()), p[..len], env, now)
    {
      hide OnData, OnError, OnAck, OnWriteRequest, OnReadRequest, ParseRequest, EnqueueAll;
      ghost var d := p[..len];
      if len > MAX_PACKET_SIZE {
        assert EnqueueAll(State(), [], now) == State() by { NothingQueued(State(), now); }
        return;
      }
      NothingQueued(State(), now);
      ghost var r := React(Ses(), d, env);
      EnqueueAllIgnoresSes(State(), Settle(Ses()), r.ses, r.out, now);
      var opcode := GetU16(p[..2]);
      assert opcode == GetU16(Buffer(d));
      if opcode == PACKET_DATA {
        ResetRetry();
        ProcessData(p, len, now);
      } else if opcode == PACKET_ERROR {
        ResetRetry();
        ProcessError(now);
      } else if opcode == PACKET_ACK {
        ResetRetry();
        ProcessAck(now);
      } else if opcode == PACKET_WRQ {
        ResetRetry();
        var q := ScanRequest(p, d);
        ProcessWriteRequest(q, env, now);
      } else if opcode == PACKET_RRQ {
        ResetRetry();
        var q := ScanRequest(p, d);
        ProcessReadRequest(q, env, now);
      }
    }

    method ResetRetry()
      modifies this
      ensures State() == old(State()).(ses := Settle(old(Ses())))
    {
      waiting := 0;
      if lastpacket.mark == 2 {
        lastpacket := NoPacket;
      }
    }

    method ProcessData(p: array<Byte>, len: nat, now: int)
      requires len <= PKTLEN == p.Length && p[..] == Buffer(p[..len]) && (sendingfile ==> len >= 4)
      modifies this
      ensures State() == Apply(old(State()), OnData(old(Ses()), p[..len]), now)
    {
      ghost var d, c := p[..len], State();
      if sendingfile {
        currentblockno := NextU16(currentblockno);
        actualblockno := NextU64(actualblockno);
        var data := p[4..len];
        assert data == Payload(d);
        f := AfterFwrite(f, data);
        ghost var r := Reaction(Ses(), []);
        var blockno := GetU16(p[2..4]);
        assert blockno == BlockField(d);
        ApplyEmit(c, r, AckPacket(blockno), now);
        Acknowledge(blockno, now);
        if len - 4 < 512 {
          destroy := true;
        }
      }
    }

    method ProcessError(now: int)
      modifies this
      ensures State() == Apply(old(State()), OnError(old(Ses())), now)
    {
      ApplyEmit(State(), Reaction(Ses(), []), AckPacket(1), now);
      Acknowledge(1, now);
      destroy := true;
    }

    method ProcessAck(now: int)
      modifies this
      ensures State() == Apply(old(State()), OnAck(old(Ses())), now)
    {
      hide DataPacket, EnqueueAll, Fread, AfterFread;
      ghost var c := State();
      NothingQueued(c, now);
      if sendingfile {
        var blk := Fread(f, blksize);
        f := AfterFread(f, blksize);
        var readlen := |blk|;
        currentblockno := NextU16(currentblockno);
        actualblockno := NextU64(actualblockno);
        ghost var r := Reaction(Ses(), []);
        ApplyEmit(c, r, DataPacket(currentblockno, blk), now);
        SendData(blk, now);
        if Min(blksize, readlen) != blksize {
          destroy := true;
        }
      }
    }

    method ProcessWriteRequest(q: Request, env: Env, now: int)
      modifies this
      ensures State() == Apply(old(State()), OnWriteRequest(old(Ses()), q, env), now)
    {
      hide ErrorPacket, AckPacket, IsMail, EnqueueAll;
      NothingQueued(State(), now);
      ghost var c, r := State(), Reaction(Ses(), []);
      if IsMail(q.mode) {
        ApplyEmit(c, r, ErrorPacket(ERROR_ILLEGAL, env.text), now);
        Error(ERROR_ILLEGAL, env.text, now);
        return;
      }
      var tmp := PathOf(q.filename, env);
      if tmp in env.denied {
        ApplyEmit(c, r, ErrorPacket(ERROR_NOUSER, env.text), now);
        Error(ERROR_NOUSER, env.text, now);
        return;
      }
      if tmp !in env.writable {
        ApplyEmit(c, r, ErrorPacket(ERROR_NOFILE, env.text), now);
        Error(ERROR_NOFILE, env.text, now);
        return;
      }
      f := WriteFile([]);
      currentblockno := 1;
      actualblockno := 1;
      sendingfile := true;
      ApplyEmit(c, Reaction(Ses(), []), AckPacket(0), now);
      Acknowledge(0, now);
    }

    method ProcessReadRequest(q: Request, env: Env, now: int)
      modifies this
      ensures State() == Apply(old(State()), OnReadRequest(old(Ses()), q, env), now)
    {
      hide ErrorPacket, OackPacket, IsMail, IsBlksize, Serve, Strtol, EnqueueAll;
      NothingQueued(State(), now);
      ghost var c, r := State(), Reaction(Ses(), []);
      if IsMail(q.mode) {
        ApplyEmit(c, r, ErrorPacket(ERROR_ILLEGAL, env.text), now);
        Error(ERROR_ILLEGAL, env.text, now);
        return;
      }
      if IsBlksize(q.opt) {
        var size := Strtol(q.param);
        if size.OutOfRange? {
          ApplyEmit(c, r, ErrorPacket(ERROR_OPTION, env.text), now);
          Error(ERROR_OPTION, env.text, now);
          return;
        }
        if size.value < 8 || size.value > 65464 {
          ApplyEmit(c, r, ErrorPacket(ERROR_OPTION, env.text), now);
          Error(ERROR_OPTION, env.text, now);
          return;
        }
        ApplyEmit(c, r, OackPacket(q.opt, q.param), now);
        r := Emit(r, OackPacket(q.opt, q.param));
        OptionAcknowledge(q.opt, q.param, now);
        sendingfile := true;
        currentblockno := 0;
        actualblockno := 0;
        blksize := size.value;
        r := r.(ses := r.ses.(sendingfile := true, currentblockno := 0, actualblockno := 0, blksize := size.value));
      }
      ServeFile(q, env, now, c, r);
    }

    /** The rest of the read request case, after option handling queued `r.out` on client `c`. */
    method ServeFile(q: Request, env: Env, now: int, ghost c: ClientState, ghost r: Reaction)
      requires State() == Apply(c, r, now)
      modifies this
      ensures State() == Apply(c, Serve(r, q, env), now)
    {
      hide ErrorPacket, OackPacket, DataPacket, IsTsize, PathOf, EnqueueAll;
      var tmp := PathOf(q.filename, env);
      ghost var checked := r;
      if tmp !in env.present {
        ApplyEmit(c, r, ErrorPacket(ERROR_NOFILE, env.text), now);
        Error(ERROR_NOFILE, env.text, now);
        checked := Fail(r, ERROR_NOFILE, env);
      }
      if tmp !in env.readable {
        ApplyEmit(c, checked, ErrorPacket(ERROR_NOFILE, env.text), now);
        Error(ERROR_NOFILE, env.text, now);
        return;
      }
      var content := env.readable[tmp];
      if IsTsize(q.opt) {
        ApplyEmit(c, checked, OackPacket(q.opt, Decimal(|content|)), now);
        OptionAcknowledge(q.opt, Decimal(|content|), now);
        return;
      }
      f := ReadFile(content, 0);
      if sendingfile {
        return;
      }
      sendingfile := true;
      currentblockno := 1;
      actualblockno := 1;
      var buf := Fread(f, 512);
      f := AfterFread(f, 512);
      ApplyEmit(c, checked.(ses := Ses()), DataPacket(1, buf), now);
      SendData(buf, now);
    }
  }
}
