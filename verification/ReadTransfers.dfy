/** The exact packet stream of a read session, and when it ends. */
module ReadTransfers {
  import opened Options
  import opened Bytes
  import opened Wire
  import opened Requests
  import opened Sessions
  import opened Reactions
  import Arithmetic

  /** Where block k ends in the file. */
  function Cut(file: seq<Byte>, b: nat, k: nat): (n: nat)
    ensures n <= |file|
  {
    Min(k * b, |file|)
  }

  lemma CutGrows(file: seq<Byte>, b: nat, k: nat)
    ensures Cut(file, b, k) <= Cut(file, b, k + 1) == Min(Cut(file, b, k) + b, |file|)
    ensures Cut(file, b, 0) == 0
  {
    assert (k + 1) * b == k * b + b;
  }

  /** Block k, counted from 1: b bytes, fewer at the end of the file, none past it. */
  function Block(file: seq<Byte>, b: nat, k: nat): seq<Byte>
    requires k >= 1
  {
    CutGrows(file, b, k - 1);
    file[Cut(file, b, k - 1)..Cut(file, b, k)]
  }

  /** A block is short exactly from number |file| / b + 1 on. */
  lemma ShortBlock(file: seq<Byte>, b: nat, k: nat)
    requires b > 0 && k >= 1
    ensures |Block(file, b, k)| <= b
    ensures |Block(file, b, k)| < b <==> |file| / b + 1 <= k
    ensures |Block(file, b, k)| < b ==> Cut(file, b, k) == |file|
  {
    CutGrows(file, b, k - 1);
    Arithmetic.DivisionBound(|file|, b, k);
    assert k * b == (k - 1) * b + b;
  }

  function BlockPacket(file: seq<Byte>, b: nat, k: nat): seq<Byte>
    requires k >= 1
  {
    DataPacket(k % 0x1_0000, Block(file, b, k))
  }

  /** DATA packets from number `first` on. */
  function DataPackets(file: seq<Byte>, b: nat, first: nat, n: nat): (r: seq<seq<Byte>>)
    requires first >= 1
    ensures |r| == n
  {
    seq(n, i requires 0 <= i < n => BlockPacket(file, b, first + i))
  }

  // ---------- One acknowledgement ----------

  predicate IsAck(d: seq<Byte>) {
    HasOpcode(d, 4)
  }

  lemma AckPacketIsAck(no: U16)
    ensures IsAck(AckPacket(no))
  {
    LayoutsAreLiteral(no, [], [], []);
  }

  /** A datagram that does nothing: too long, or an unknown opcode. */
  predicate IsInert(d: seq<Byte>) {
    |d| <= PKTLEN && !Recognised(d)
  }

  /** k blocks of `file` have been read and numbered. */
  ghost predicate Serving(s: Session, file: seq<Byte>, b: nat, k: nat) {
    && s.sendingfile
    && s.f == ReadFile(file, Cut(file, b, k))
    && s.blksize == b
    && s.actualblockno == k % 0x1_0000_0000_0000_0000
    && s.currentblockno == k % 0x1_0000
  }

  lemma BlockNumberAdvances(k: nat)
    ensures NextU16(k % 0x1_0000) == (k + 1) % 0x1_0000
  {
  }

  lemma BlockCountAdvances(k: nat)
    ensures NextU64(k % 0x1_0000_0000_0000_0000) == (k + 1) % 0x1_0000_0000_0000_0000
  {
    var m := 0x1_0000_0000_0000_0000;
    var q, r := k / m, k % m;
    assert k == q * m + r;
    assert k + 1 == if r + 1 < m then q * m + (r + 1) else (q + 1) * m;
  }

  lemma NumbersAdvance(k: nat)
    ensures NextU16(k % 0x1_0000) == (k + 1) % 0x1_0000
    ensures NextU64(k % 0x1_0000_0000_0000_0000) == (k + 1) % 0x1_0000_0000_0000_0000
  {
    hide NextU16, NextU64;
    BlockNumberAdvances(k);
    BlockCountAdvances(k);
  }

  lemma ReadAdvances(file: seq<Byte>, b: nat, k: nat)
    ensures Fread(ReadFile(file, Cut(file, b, k)), b) == Block(file, b, k + 1)
    ensures AfterFread(ReadFile(file, Cut(file, b, k)), b) == ReadFile(file, Cut(file, b, k + 1))
  {
    CutGrows(file, b, k);
  }

  lemma AckSendsNextBlock(s: Session, d: seq<Byte>, env: Env, file: seq<Byte>, b: nat, k: nat)
    requires Serving(s, file, b, k) && b > 0 && IsAck(d)
    ensures var r := React(s, d, env);
      && r.out == [BlockPacket(file, b, k + 1)]
      && Serving(r.ses, file, b, k + 1)
      && (r.ses.destroy <==> s.destroy || |file| / b + 1 <= k + 1)
  {
    hide DataPacket, Fread, AfterFread, OnData, OnError, OnWriteRequest, OnReadRequest, Cut, NextU16, NextU64;
    NumbersAdvance(k);
    ReadAdvances(file, b, k);
    ShortBlock(file, b, k + 1);
  }

  lemma InertDoesNothing(s: Session, d: seq<Byte>, env: Env)
    requires IsInert(d)
    ensures React(s, d, env) == Reaction(s, [])
  {
  }

  // ---------- Runs of acknowledgements ----------

  ghost predicate AcksOnly(h: seq<Input>) {
    forall i :: 0 <= i < |h| ==> IsAck(h[i].d) || IsInert(h[i].d)
  }

  function Acks(h: seq<Input>): nat {
    if h == [] then 0 else Acks(h[..|h| - 1]) + (if IsAck(h[|h| - 1].d) then 1 else 0)
  }

  lemma AcksOnlyIsReceived(h: seq<Input>)
    requires AcksOnly(h)
    ensures Received(h)
  {
  }

  lemma DataPacketsSnoc(file: seq<Byte>, b: nat, first: nat, n: nat)
    requires first >= 1
    ensures DataPackets(file, b, first, n + 1) == DataPackets(file, b, first, n) + [BlockPacket(file, b, first + n)]
  {
    hide BlockPacket;
  }

  /** From a session that served k blocks, n acknowledgements send exactly blocks k + 1 .. k + n. */
  lemma {:induction false} AcksSendBlocks(s: Session, h: seq<Input>, file: seq<Byte>, b: nat, k: nat)
    requires Serving(s, file, b, k) && b > 0 && AcksOnly(h)
    ensures Received(h)
    ensures var r := Solo(s, h); var n := Acks(h);
      && r.out == DataPackets(file, b, k + 1, n)
      && Serving(r.ses, file, b, k + n)
      && (r.ses.destroy <==> s.destroy || (n > 0 && |file| / b + 1 <= k + n))
    decreases |h|
  {
    hide Serving, React, BlockPacket;
    AcksOnlyIsReceived(h);
    if h != [] {
      var before, last := h[..|h| - 1], h[|h| - 1];
      AcksSendBlocks(s, before, file, b, k);
      var mid := Solo(s, before).ses;
      if IsAck(last.d) {
        AckSendsNextBlock(mid, last.d, last.env, file, b, k + Acks(before));
        DataPacketsSnoc(file, b, k + 1, Acks(before));
      } else {
        InertDoesNothing(mid, last.d, last.env);
      }
    }
  }

  // ---------- The request ----------

  /** What a read request asks for and is granted: the default 512-byte session, or a negotiated size. */
  datatype Mode = Default | Negotiated(opt: seq<Byte>, param: seq<Byte>, size: nat)

  function BlockSize(m: Mode): nat {
    if m.Default? then 512 else m.size
  }

  /** A datagram that is a grantable read request for `file` in this mode. */
  ghost predicate IsReadRequest(d: seq<Byte>, env: Env, file: seq<Byte>, m: Mode) {
    && HasOpcode(d, 1)
    && var q := ParseRequest(Buffer(d));
      var path := PathOf(q.filename, env);
      && !IsMail(q.mode)
      && path in env.present && path in env.readable && env.readable[path] == file
      && match m
         case Default => !IsBlksize(q.opt) && !IsTsize(q.opt)
         case Negotiated(opt, param, size) =>
           && q.opt == opt && q.param == param
           && IsBlksize(opt) && Strtol(param) == InRange(size) && 8 <= size <= 65464
  }

  /** What the request alone puts on the wire. */
  function Opening(file: seq<Byte>, m: Mode): seq<seq<Byte>> {
    match m
    case Default => [BlockPacket(file, 512, 1)]
    case Negotiated(opt, param, size) => [OackPacket(opt, param)]
  }

  function BlocksInOpening(m: Mode): nat {
    if m.Default? then 1 else 0
  }

  lemma RequestOpens(d: seq<Byte>, env: Env, file: seq<Byte>, m: Mode)
    requires IsReadRequest(d, env, file, m)
    ensures var r := React(FreshSession, d, env);
      && r.out == Opening(file, m)
      && Serving(r.ses, file, BlockSize(m), BlocksInOpening(m))
      && !r.ses.destroy
  {
    hide DataPacket, OackPacket, Strtol, IsMail, IsBlksize, IsTsize, ParseRequest, PathOf, Fread, AfterFread, Cut,
         OnData, OnError, OnAck, OnWriteRequest;
    var q := ParseRequest(Buffer(d));
    CutGrows(file, BlockSize(m), 0);
    ReadAdvances(file, 512, 0);
    assert React(FreshSession, d, env) == OnReadRequest(Settle(FreshSession), q, env);
    if m.Negotiated? {
      BlksizeIsNotTsize(q.opt);
    }
  }

  lemma BlksizeIsNotTsize(opt: seq<Byte>)
    ensures !(IsBlksize(opt) && IsTsize(opt))
  {
  }

  // ---------- Exactly which requests are granted ----------

  /** The mode a read request would be served in, from its option alone; None when the option is refused or is tsize. */
  function ModeOf(q: Request): Option<Mode> {
    if IsBlksize(q.opt) then
      match Strtol(q.param)
      case OutOfRange => None
      case InRange(size) =>
        if size < 8 || size > 65464 then None else Some(Negotiated(q.opt, q.param, size))
    else if IsTsize(q.opt) then None
    else Some(Default)
  }

  /** Some ERROR packet was queued. */
  ghost predicate ReportsError(out: seq<seq<Byte>>) {
    exists i :: 0 <= i < |out| && Decode(out[i]).Err?
  }

  lemma FailReports(r: Reaction, errnum: U16, env: Env)
    ensures ReportsError(Fail(r, errnum, env).out) && Fail(r, errnum, env).ses.destroy
  {
    hide ErrorPacket, Decode;
    DecodeError(errnum, env.text);
    var out := Fail(r, errnum, env).out;
    assert Decode(out[|out| - 1]).Err?;
  }

  lemma EmitKeepsReport(r: Reaction, p: seq<Byte>)
    requires ReportsError(r.out)
    ensures ReportsError(Emit(r, p).out)
  {
    hide Decode;
    var i :| 0 <= i < |r.out| && Decode(r.out[i]).Err?;
    assert Emit(r, p).out[i] == r.out[i];
  }

  lemma ServeOutcome(r: Reaction, q: Request, env: Env)
    requires r.ses.sendingfile ==> !IsTsize(q.opt)
    requires !r.ses.destroy
    ensures var path := PathOf(q.filename, env); var s := Serve(r, q, env);
      && (s.ses.destroy <==> path !in env.present || path !in env.readable)
      && (s.ses.destroy ==> ReportsError(s.out))
      && (s.ses.sendingfile <==> r.ses.sendingfile || (path in env.readable && !IsTsize(q.opt)))
  {
    hide ErrorPacket, OackPacket, DataPacket, PathOf, IsTsize, Decode, Decimal, ReportsError, Fread, AfterFread;
    var path := PathOf(q.filename, env);
    FailReports(r, 1, env);
    var checked := if path in env.present then r else Fail(r, 1, env);
    FailReports(checked, 1, env);
    if path in env.readable && path !in env.present {
      EmitKeepsReport(checked, OackPacket(q.opt, Decimal(|env.readable[path]|)));
      EmitKeepsReport(checked, DataPacket(1, Fread(ReadFile(env.readable[path], 0), 512)));
    }
  }

  /**
   A fresh client's read request starts a transfer if and only if its mode is not a spelling of mail, its
   option is no size query and no block size outside 8..65464, and the one path it names is there and can
   be opened; the client is given up only with an ERROR packet queued.
   */
  lemma RequestIsGrantedExactly(d: seq<Byte>, env: Env, path: Path)
    requires HasOpcode(d, 1) && Names(path, env, ParseRequest(Buffer(d)).filename)
    ensures var q := ParseRequest(Buffer(d)); var r := React(FreshSession, d, env);
      var grantable := ReadAccepted(q) && !SpellsTsize(q.opt) && path in env.present && path in env.readable;
      && (r.ses.sendingfile && !r.ses.destroy <==> grantable)
      && (grantable <==> ModeOf(q).Some? && path in env.readable && IsReadRequest(d, env, env.readable[path], ModeOf(q).value))
      && (r.ses.destroy ==> ReportsError(r.out))
  {
    hide ErrorPacket, OackPacket, DataPacket, PathOf, IsMail, IsBlksize, IsTsize, Strtol, ParseRequest, Decode, Serve,
         ReportsError, OnData, OnError, OnAck, OnWriteRequest, SpellsMail, SpellsBlksize, SpellsTsize;
    var q := ParseRequest(Buffer(d));
    var s := Settle(FreshSession);
    var start := Reaction(s, []);
    assert React(FreshSession, d, env) == OnReadRequest(s, q, env);
    OnePathIsNamed(path, env, q.filename);
    WordsAreRecognised(q.mode);
    WordsAreRecognised(q.opt);
    BlksizeIsNotTsize(q.opt);
    FailReports(start, 4, env);
    FailReports(start, 8, env);
    if IsBlksize(q.opt) {
      match Strtol(q.param)
      case OutOfRange =>
      case InRange(size) =>
        if 8 <= size <= 65464 {
          var r := Emit(start, OackPacket(q.opt, q.param));
          ServeOutcome(r.(ses := r.ses.(sendingfile := true, currentblockno := 0, actualblockno := 0, blksize := size)), q, env);
        }
    } else {
      ServeOutcome(start, q, env);
    }
  }

  /** What a peer reads when its request is not granted, and the size query's answer. */
  lemma RefusedRequestsAreAnswered(d: seq<Byte>, env: Env)
    requires HasOpcode(d, 1)
    ensures var q := ParseRequest(Buffer(d)); var r := React(FreshSession, d, env);
      var path := PathOf(q.filename, env);
      && (IsMail(q.mode) ==> |r.out| == 1 && Decode(r.out[0]) == Err(4, env.text))
      && (!IsMail(q.mode) && IsBlksize(q.opt) && ModeOf(q).None? ==>
            |r.out| == 1 && Decode(r.out[0]) == Err(8, env.text))
      && (!IsMail(q.mode) && (ModeOf(q).Some? || IsTsize(q.opt)) && path !in env.readable ==>
            r.out != [] && Decode(r.out[|r.out| - 1]) == Err(1, env.text))
      && (!IsMail(q.mode) && IsTsize(q.opt) && path in env.present && path in env.readable ==>
            |r.out| == 1 && Decode(r.out[0]) == Oack(q.opt, []) && !r.ses.sendingfile && !r.ses.destroy)
  {
    hide ErrorPacket, OackPacket, DataPacket, PathOf, IsMail, IsBlksize, IsTsize, Strtol, ParseRequest, Decode, Decimal,
         OnData, OnError, OnAck, OnWriteRequest, Fread, AfterFread;
    var q := ParseRequest(Buffer(d));
    assert React(FreshSession, d, env) == OnReadRequest(Settle(FreshSession), q, env);
    BlksizeIsNotTsize(q.opt);
    DecodeError(4, env.text);
    DecodeError(8, env.text);
    DecodeError(1, env.text);
    OptionHasNoNul(Buffer(d));
    if PathOf(q.filename, env) in env.readable {
      DecodeQueuedOack(q.opt, Decimal(|env.readable[PathOf(q.filename, env)]|));
    }
  }

  lemma OptionHasNoNul(b: seq<Byte>)
    requires |b| == PKTLEN
    ensures NulFree(ParseRequest(b).opt)
  {
    FieldIsCStr(b, 2);
    FieldIsCStr(b, After(b, 2));
    FieldIsCStr(b, After(b, After(b, 2)));
  }

  // ---------- The whole session ----------

  /** The packets of a read session after n acknowledgements. */
  function Stream(file: seq<Byte>, m: Mode, n: nat): seq<seq<Byte>> {
    match m
    case Default => DataPackets(file, 512, 1, n + 1)
    case Negotiated(opt, param, size) => [OackPacket(opt, param)] + DataPackets(file, size, 1, n)
  }

  /** Acknowledgements a read session takes before it is given up. */
  function AcksToFinish(file: seq<Byte>, m: Mode): nat
    requires BlockSize(m) > 0
  {
    if m.Default? then Max(1, |file| / 512) else |file| / m.size + 1
  }

  lemma StreamIsOpeningThenBlocks(file: seq<Byte>, m: Mode, n: nat)
    ensures Stream(file, m, n) == Opening(file, m) + DataPackets(file, BlockSize(m), BlocksInOpening(m) + 1, n)
  {
    hide BlockPacket, OackPacket;
  }

  /**
   The stream of a session is determined by the file, the mode and the number of acknowledgements; which
   blocks they name, and what unknown or oversized datagrams come between them, does not matter.
   */
  lemma ReadStreamIsExact(h: seq<Input>, file: seq<Byte>, m: Mode)
    requires h != [] && IsReadRequest(h[0].d, h[0].env, file, m) && AcksOnly(h[1..])
    ensures Received(h) && BlockSize(m) > 0
    ensures Solo(FreshSession, h).out == Stream(file, m, Acks(h[1..]))
    ensures Solo(FreshSession, h).ses.destroy <==> Acks(h[1..]) >= AcksToFinish(file, m)
  {
    hide IsReadRequest, React, Serving, AcksOnly, Stream, AcksToFinish, Acks, Opening, DataPackets;
    RequestFits(h[0].d, h[0].env, file, m);
    RequestOpens(h[0].d, h[0].env, file, m);
    var first := React(FreshSession, h[0].d, h[0].env);
    AcksOnlyIsReceived(h[1..]);
    ReceivedCons(h);
    SoloCons(FreshSession, h);
    AcksSendBlocks(first.ses, h[1..], file, BlockSize(m), BlocksInOpening(m));
    StreamIsOpeningThenBlocks(file, m, Acks(h[1..]));
    LastBlockCondition(file, m, Acks(h[1..]));
  }

  lemma LastBlockCondition(file: seq<Byte>, m: Mode, n: nat)
    requires BlockSize(m) > 0
    ensures n > 0 && |file| / BlockSize(m) + 1 <= BlocksInOpening(m) + n <==> n >= AcksToFinish(file, m)
  {
  }

  lemma RequestFits(d: seq<Byte>, env: Env, file: seq<Byte>, m: Mode)
    requires IsReadRequest(d, env, file, m)
    ensures |d| <= 516 && BlockSize(m) >= 8
  {
  }

  lemma ReceivedCons(h: seq<Input>)
    requires h != [] && |h[0].d| <= PKTLEN && Received(h[1..])
    ensures Received(h)
  {
    assert forall i :: 1 <= i < |h| ==> h[i] == h[1..][i - 1];
  }

  /** A history can be taken apart at its first datagram. */
  lemma {:induction false} SoloCons(s: Session, h: seq<Input>)
    requires h != [] && Received(h)
    ensures Received(h[1..])
    ensures var first := React(s, h[0].d, h[0].env); var rest := Solo(first.ses, h[1..]);
      Solo(s, h) == Reaction(rest.ses, first.out + rest.out)
    decreases |h|
  {
    hide React;
    if |h| == 1 {
      assert h[..0] == [] && h[1..] == [];
      assert Solo(s, h[..0]) == Reaction(s, []);
      assert [] + React(s, h[0].d, h[0].env).out == React(s, h[0].d, h[0].env).out + [];
    } else {
      var before := h[..|h| - 1];
      SoloCons(s, before);
      assert before[1..] == h[1..][..|h| - 2];
      assert before[0] == h[0] && h[1..][|h| - 2] == h[|h| - 1];
    }
  }

  // ---------- The payloads are the file ----------

  function Payloads(file: seq<Byte>, b: nat, n: nat): seq<Byte> {
    if n == 0 then [] else Payloads(file, b, n - 1) + Block(file, b, n)
  }

  lemma SlicesJoin(file: seq<Byte>, lo: nat, hi: nat)
    requires lo <= hi <= |file|
    ensures file[..lo] + file[lo..hi] == file[..hi]
  {
  }

  /** The first n payloads concatenate to the file's first n * b bytes, past 65535 blocks as before. */
  lemma {:induction false} PayloadsArePrefix(file: seq<Byte>, b: nat, n: nat)
    ensures Payloads(file, b, n) == file[..Cut(file, b, n)]
  {
    hide Cut;
    CutGrows(file, b, 0);
    if n > 0 {
      PayloadsArePrefix(file, b, n - 1);
      CutGrows(file, b, n - 1);
      SlicesJoin(file, Cut(file, b, n - 1), Cut(file, b, n));
    }
  }

  /** With the short block, the payloads are the whole file. */
  lemma PayloadsAreTheFile(file: seq<Byte>, b: nat, n: nat)
    requires b > 0 && n >= |file| / b + 1
    ensures Payloads(file, b, n) == file
  {
    hide Cut, Block;
    PayloadsArePrefix(file, b, n);
    ShortBlock(file, b, n);
    assert file[..|file|] == file;
  }

  // ---------- A request as a peer encodes it ----------

  /** The negotiated session a peer gets by asking for a decimal block size in range, for the path its file name names. */
  lemma EncodedRequestIsGranted(filename: seq<Byte>, mode: seq<Byte>, size: nat, env: Env, path: Path)
    requires NulFree(filename) && NulFree(mode) && !SpellsMail(mode) && 8 <= size <= 65464
    requires Names(path, env, filename) && path in env.present && path in env.readable
    requires |EncodeRequest(1, filename, mode, WithOption(Ascii("blksize"), Decimal(size)))| <= 516
    ensures var d := EncodeRequest(1, filename, mode, WithOption(Ascii("blksize"), Decimal(size)));
      IsReadRequest(d, env, env.readable[path], Negotiated(Ascii("blksize"), Decimal(size), size))
  {
    hide EncodeRequest, ParseRequest, Decimal, PathOf, IsMail, SpellsMail, Names;
    OnePathIsNamed(path, env, filename);
    WordsAreRecognised(mode);
    StrtolOfDecimal(size);
    ParseOfEncode(1, filename, mode, WithOption(Ascii("blksize"), Decimal(size)));
  }

  lemma PlainRequestIsGranted(filename: seq<Byte>, mode: seq<Byte>, env: Env, path: Path)
    requires NulFree(filename) && NulFree(mode) && !SpellsMail(mode)
    requires Names(path, env, filename) && path in env.present && path in env.readable
    requires |EncodeRequest(1, filename, mode, NoOption)| <= 516
    ensures var d := EncodeRequest(1, filename, mode, NoOption);
      IsReadRequest(d, env, env.readable[path], Default)
  {
    hide EncodeRequest, ParseRequest, PathOf, IsMail, SpellsMail, Names;
    OnePathIsNamed(path, env, filename);
    WordsAreRecognised(mode);
    ParseOfEncode(1, filename, mode, NoOption);
  }
}
