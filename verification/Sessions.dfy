/**
 The transfer state machine of src/process.c as a function: what one datagram does to a client's
 transfer state and which packets it queues. Client.ProcessPacket is proved to compute exactly this.
 */
module Sessions {
  import opened Bytes
  import opened Wire
  import opened Requests

  type Path = seq<Byte>

  /** Error wording is an oracle; Error() itself asserts that it fits a 516-byte packet. */
  type ErrText = t: seq<Byte> | |t| <= 512 && NulFree(t)

  /** What the configuration and the file system answer while one datagram is processed. */
  datatype Env = Env(
    directory: Path,
    fixpath: bool,
    present: set<Path>,              // FileExists
    readable: map<Path, seq<Byte>>,  // fopen for reading succeeds, with these contents
    denied: set<Path>,               // access fails with EACCES
    writable: set<Path>,             // fopen for writing succeeds
    text: ErrText)

  /** FILE *f. A read stream has an offset, a write stream accumulates. */
  datatype FileHandle = NoFile | ReadFile(content: seq<Byte>, pos: nat) | WriteFile(content: seq<Byte>)

  /** packetqueue_t: a packet and its `allocated` field, here mark: 1 fresh, 2 resent. */
  datatype Queued = Queued(bytes: seq<Byte>, mark: nat)

  datatype Session = Session(
    sendingfile: bool,
    destroy: bool,
    currentblockno: U16,
    actualblockno: U64,
    waiting: nat,
    f: FileHandle,
    blksize: nat,
    lastpacket: Queued)

  const NoPacket := Queued([], 0)

  /** The zeroed client of FindOrAllocateClient after AddClient. */
  const FreshSession := Session(false, false, 0, 0, 0, NoFile, 512, NoPacket)

  /** The new state and the packets queued, oldest first. */
  datatype Reaction = Reaction(ses: Session, out: seq<seq<Byte>>)

  function Fread(f: FileHandle, size: nat): (data: seq<Byte>)
    ensures |data| <= size
  {
    match f
    case ReadFile(content, pos) => content[Min(pos, |content|)..Min(pos + size, |content|)]
    case _ => []
  }

  function AfterFread(f: FileHandle, size: nat): FileHandle {
    match f
    case ReadFile(content, pos) => ReadFile(content, Max(pos, Min(pos + size, |content|)))
    case _ => f
  }

  function AfterFwrite(f: FileHandle, data: seq<Byte>): FileHandle {
    match f
    case WriteFile(content) => WriteFile(content + data)
    case _ => f
  }

  function NextU16(n: U16): U16 {
    (n + 1) % 0x1_0000
  }

  function NextU64(n: U64): U64 {
    (n + 1) % 0x1_0000_0000_0000_0000
  }

  function NextBlock(s: Session): Session {
    s.(currentblockno := NextU16(s.currentblockno), actualblockno := NextU64(s.actualblockno))
  }

  /** QueuePacket with allocated == 1, as seen by the transfer state. */
  function Emit(r: Reaction, p: seq<Byte>): Reaction {
    Reaction(r.ses.(lastpacket := Queued(p, 1)), r.out + [p])
  }

  /** Error(): queue an ERROR packet and give the client up. */
  function Fail(r: Reaction, errnum: U16, env: Env): Reaction {
    var queued := Emit(r, ErrorPacket(errnum, env.text));
    queued.(ses := queued.ses.(destroy := true))
  }

  /** The preamble of every recognised case. */
  function Settle(s: Session): Session {
    s.(waiting := 0, lastpacket := if s.lastpacket.mark == 2 then NoPacket else s.lastpacket)
  }

  function FixPath(name: seq<Byte>): seq<Byte> {
    seq(|name|, i requires 0 <= i < |name| => if name[i] == 92 then 47 else name[i])
  }

  /** The path a request names: "%s/%s" of the served directory and the (fixed) file name. */
  function PathOf(filename: seq<Byte>, env: Env): Path {
    env.directory + [47] + (if env.fixpath then FixPath(filename) else filename)
  }

  function Payload(d: seq<Byte>): seq<Byte> {
    if |d| < 4 then [] else d[4..]
  }

  function BlockField(d: seq<Byte>): U16
    requires |d| <= PKTLEN
  {
    GetU16(Buffer(d)[2..])
  }

  predicate IsMail(mode: seq<Byte>) {
    SameIgnoringCase(mode, Ascii("mail"))
  }

  predicate IsBlksize(opt: seq<Byte>) {
    SameIgnoringCase(opt, Ascii("blksize"))
  }

  predicate IsTsize(opt: seq<Byte>) {
    SameIgnoringCase(opt, Ascii("tsize"))
  }

  // ---------- The cases of ProcessPacket ----------

  function OnData(s: Session, d: seq<Byte>): Reaction
    requires |d| <= PKTLEN
  {
    if !s.sendingfile then Reaction(s, [])
    else
      var data := Payload(d);
      var written := NextBlock(s).(f := AfterFwrite(s.f, data));
      var r := Emit(Reaction(written, []), AckPacket(BlockField(d)));
      if |data| < 512 then r.(ses := r.ses.(destroy := true)) else r
  }

  function OnError(s: Session): Reaction {
    var r := Emit(Reaction(s, []), AckPacket(1));
    r.(ses := r.ses.(destroy := true))
  }

  function OnAck(s: Session): Reaction {
    if !s.sendingfile then Reaction(s, [])
    else
      var data := Fread(s.f, s.blksize);
      var next := NextBlock(s).(f := AfterFread(s.f, s.blksize));
      var r := Emit(Reaction(next, []), DataPacket(next.currentblockno, data));
      if Min(s.blksize, |data|) != s.blksize then r.(ses := r.ses.(destroy := true)) else r
  }

  function OnWriteRequest(s: Session, q: Request, env: Env): Reaction {
    var path := PathOf(q.filename, env);
    if IsMail(q.mode) then Fail(Reaction(s, []), ERROR_ILLEGAL, env)
    else if path in env.denied then Fail(Reaction(s, []), ERROR_NOUSER, env)
    else if path !in env.writable then Fail(Reaction(s, []), ERROR_NOFILE, env)
    else
      var open := s.(f := WriteFile([]), currentblockno := 1, actualblockno := 1, sendingfile := true);
      Emit(Reaction(open, []), AckPacket(0))
  }

  function OnReadRequest(s: Session, q: Request, env: Env): Reaction {
    if IsMail(q.mode) then Fail(Reaction(s, []), ERROR_ILLEGAL, env)
    else if IsBlksize(q.opt) then
      match Strtol(q.param)
      case OutOfRange => Fail(Reaction(s, []), ERROR_OPTION, env)
      case InRange(size) =>
        if size < 8 || size > 65464 then Fail(Reaction(s, []), ERROR_OPTION, env)
        else
          var r := Emit(Reaction(s, []), OackPacket(q.opt, q.param));
          Serve(r.(ses := r.ses.(sendingfile := true, currentblockno := 0, actualblockno := 0, blksize := size)), q, env)
    else Serve(Reaction(s, []), q, env)
  }

  /** The part of the read request after option handling: open the file and start, or report. */
  function Serve(r: Reaction, q: Request, env: Env): Reaction {
    var path := PathOf(q.filename, env);
    var checked := if path in env.present then r else Fail(r, ERROR_NOFILE, env);
    if path !in env.readable then Fail(checked, ERROR_NOFILE, env)
    else if IsTsize(q.opt) then
      Emit(checked, OackPacket(q.opt, Decimal(|env.readable[path]|)))
    else
      var open := checked.ses.(f := ReadFile(env.readable[path], 0));
      if open.sendingfile then checked.(ses := open)
      else
        var first := open.(sendingfile := true, currentblockno := 1, actualblockno := 1, f := AfterFread(open.f, 512));
        Emit(checked.(ses := first), DataPacket(1, Fread(open.f, 512)))
  }

  /** ProcessPacket on datagram `d`, held in the zeroed receive buffer. */
  function React(s: Session, d: seq<Byte>, env: Env): Reaction
    requires |d| <= PKTLEN
  {
    if |d| > MAX_PACKET_SIZE then Reaction(s, [])
    else
      var opcode := GetU16(Buffer(d));
      if opcode == PACKET_DATA then OnData(Settle(s), d)
      else if opcode == PACKET_ERROR then OnError(Settle(s))
      else if opcode == PACKET_ACK then OnAck(Settle(s))
      else if opcode == PACKET_WRQ then OnWriteRequest(Settle(s), ParseRequest(Buffer(d)), env)
      else if opcode == PACKET_RRQ then OnReadRequest(Settle(s), ParseRequest(Buffer(d)), env)
      else Reaction(s, [])
  }

  /** Datagrams the state machine recognises at all. */
  predicate Recognised(d: seq<Byte>)
    requires |d| <= PKTLEN
  {
    |d| <= MAX_PACKET_SIZE && 1 <= GetU16(Buffer(d)) <= 5
  }

  // ---------- State invariants over all opcode sequences ----------

  ghost predicate Sound(s: Session) {
    && s.currentblockno == s.actualblockno % 0x1_0000
    && 8 <= s.blksize <= 65464
    && (s.sendingfile && !s.destroy ==> s.f != NoFile)
    && s.lastpacket.mark != 2
  }

  lemma BlockNumbersStayCongruent(s: Session)
    requires s.currentblockno == s.actualblockno % 0x1_0000
    ensures NextU16(s.currentblockno) == NextU64(s.actualblockno) % 0x1_0000
  {
  }

  /** How every case relates the state it was given to what it leaves. */
  ghost predicate Follows(s: Session, r: Reaction) {
    && (s.destroy ==> r.ses.destroy)
    && r.ses.waiting == s.waiting
    && r.ses.lastpacket == (if r.out == [] then s.lastpacket else Queued(r.out[|r.out| - 1], 1))
  }

  lemma EmitFollows(s: Session, r: Reaction, p: seq<Byte>)
    requires Follows(s, r)
    ensures Follows(s, Emit(r, p))
  {
  }

  lemma FailFollows(s: Session, r: Reaction, errnum: U16, env: Env)
    requires Follows(s, r)
    ensures Follows(s, Fail(r, errnum, env)) && Fail(r, errnum, env).ses == Fail(r, errnum, env).ses.(destroy := true)
    ensures Fail(r, errnum, env).ses.(lastpacket := r.ses.lastpacket, destroy := r.ses.destroy) == r.ses
    ensures Fail(r, errnum, env).ses.lastpacket.mark == 1
  {
    EmitFollows(s, r, ErrorPacket(errnum, env.text));
  }

  lemma DataCase(s: Session, d: seq<Byte>)
    requires |d| <= PKTLEN
    ensures Follows(s, OnData(s, d)) && (Sound(s) ==> Sound(OnData(s, d).ses))
  {
    BlockNumbersStayCongruentWhenSound(s);
  }

  lemma AckCase(s: Session)
    ensures Follows(s, OnAck(s)) && (Sound(s) ==> Sound(OnAck(s).ses))
  {
    BlockNumbersStayCongruentWhenSound(s);
  }

  lemma WriteRequestCase(s: Session, q: Request, env: Env)
    ensures Follows(s, OnWriteRequest(s, q, env)) && (Sound(s) ==> Sound(OnWriteRequest(s, q, env).ses))
  {
    FailFollows(s, Reaction(s, []), ERROR_ILLEGAL, env);
    FailFollows(s, Reaction(s, []), ERROR_NOUSER, env);
    FailFollows(s, Reaction(s, []), ERROR_NOFILE, env);
  }

  /** Sound, but possibly sending a file that is not open yet. */
  ghost predicate SoundButUnopened(s: Session) {
    Sound(s.(sendingfile := false))
  }

  lemma ServeCase(s: Session, r: Reaction, q: Request, env: Env)
    requires Follows(s, r)
    ensures Follows(s, Serve(r, q, env))
    ensures SoundButUnopened(r.ses) && (IsTsize(q.opt) ==> Sound(r.ses)) ==> Sound(Serve(r, q, env).ses)
  {
    var checked := if PathOf(q.filename, env) in env.present then r else Fail(r, ERROR_NOFILE, env);
    FailFollows(s, r, ERROR_NOFILE, env);
    FailFollows(s, checked, ERROR_NOFILE, env);
  }

  lemma ReadRequestCase(s: Session, q: Request, env: Env)
    ensures Follows(s, OnReadRequest(s, q, env)) && (Sound(s) ==> Sound(OnReadRequest(s, q, env).ses))
  {
    hide OackPacket, ErrorPacket, Strtol, IsMail, Serve;
    FailFollows(s, Reaction(s, []), ERROR_ILLEGAL, env);
    FailFollows(s, Reaction(s, []), ERROR_OPTION, env);
    if IsBlksize(q.opt) {
      assert |q.opt| == 7;
      match Strtol(q.param)
      case OutOfRange =>
      case InRange(size) =>
        if 8 <= size <= 65464 {
          var r := Emit(Reaction(s, []), OackPacket(q.opt, q.param));
          ServeCase(s, r.(ses := r.ses.(sendingfile := true, currentblockno := 0, actualblockno := 0, blksize := size)), q, env);
        }
    } else {
      ServeCase(s, Reaction(s, []), q, env);
    }
  }

  lemma BlockNumbersStayCongruentWhenSound(s: Session)
    ensures Sound(s) ==> Sound(NextBlock(s))
  {
    if Sound(s) {
      BlockNumbersStayCongruent(s);
    }
  }

  /** Every case, with what it keeps; destroy is never cleared, a recognised packet resets the retry counter. */
  lemma ReactFollows(s: Session, d: seq<Byte>, env: Env)
    requires |d| <= PKTLEN
    ensures Sound(s) ==> Sound(React(s, d, env).ses)
    ensures s.destroy ==> React(s, d, env).ses.destroy
    ensures React(s, d, env).ses.waiting == if Recognised(d) then 0 else s.waiting
    ensures s.lastpacket.mark != 2 ==> var r := React(s, d, env);
      r.ses.lastpacket == if r.out == [] then s.lastpacket else Queued(r.out[|r.out| - 1], 1)
  {
    hide OnData, OnAck, OnWriteRequest, OnReadRequest, ParseRequest, Serve;
    DataCase(Settle(s), d);
    AckCase(Settle(s));
    if |d| <= MAX_PACKET_SIZE {
      WriteRequestCase(Settle(s), ParseRequest(Buffer(d)), env);
      ReadRequestCase(Settle(s), ParseRequest(Buffer(d)), env);
    }
  }

  /** One datagram and the answers the environment gave while it was processed. */
  datatype Input = Input(d: seq<Byte>, env: Env)

  ghost predicate Received(h: seq<Input>) {
    forall i :: 0 <= i < |h| ==> |h[i].d| <= PKTLEN
  }

  /** A session that processed the datagrams `h`, starting from state `s`; everything it queued. */
  function Solo(s: Session, h: seq<Input>): (r: Reaction)
    requires Received(h)
    decreases |h|
  {
    if h == [] then Reaction(s, [])
    else
      var before := Solo(s, h[..|h| - 1]);
      var last := h[|h| - 1];
      var r := React(before.ses, last.d, last.env);
      Reaction(r.ses, before.out + r.out)
  }

  /** The invariants over every sequence of datagrams. */
  lemma {:induction false} SoloIsSound(s: Session, h: seq<Input>)
    requires Received(h) && Sound(s)
    ensures Sound(Solo(s, h).ses)
    ensures s.destroy ==> Solo(s, h).ses.destroy
    ensures s.waiting == 0 ==> Solo(s, h).ses.waiting == 0
    ensures Solo(s, h).ses.lastpacket ==
      if Solo(s, h).out == [] then s.lastpacket else Queued(Solo(s, h).out[|Solo(s, h).out| - 1], 1)
    decreases |h|
  {
    if h != [] {
      var before := Solo(s, h[..|h| - 1]).ses;
      var last := h[|h| - 1];
      SoloIsSound(s, h[..|h| - 1]);
      ReactFollows(before, last.d, last.env);
    }
  }
}
