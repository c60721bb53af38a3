/** Exactly when the transfer code works on a stream that was never opened: c->f is NULL in fread or fwrite. */
module NullFiles {
  import opened Options
  import opened Bytes
  import opened Wire
  import opened Requests
  import opened Sessions
  import opened Clients
  import opened Servers
  import opened Pools
  import opened ReadTransfers
  import opened WriteTransfers
  import opened Isolation

  /** The packets that read or write the client's file. */
  predicate IsTransferPacket(d: seq<Byte>) {
    HasOpcode(d, 4) || HasOpcode(d, 3)
  }

  /** The client is sending, and has no stream. */
  predicate LacksFile(s: Session) {
    s.sendingfile && s.f == NoFile
  }

  /** Processing `d` in this state calls fread or fwrite on NULL. */
  predicate TouchesNull(s: Session, d: seq<Byte>) {
    IsTransferPacket(d) && LacksFile(s)
  }

  /** A read request whose block size is accepted and whose file cannot be opened. */
  ghost predicate RefusedNegotiation(d: seq<Byte>, env: Env) {
    && HasOpcode(d, 1)
    && var q := ParseRequest(Buffer(d));
      !IsMail(q.mode) && ModeOf(q).Some? && ModeOf(q).value.Negotiated? && PathOf(q.filename, env) !in env.readable
  }

  /** A request that opens a stream for the client, whatever its state. */
  ghost predicate OpensFile(d: seq<Byte>, env: Env) {
    || IsWriteRequest(d, env)
    || (HasOpcode(d, 1)
        && var q := ParseRequest(Buffer(d));
          !IsMail(q.mode) && ModeOf(q).Some? && PathOf(q.filename, env) in env.readable)
  }

  /** How the stream and the sending flag follow from the datagram. */
  ghost predicate Tracks(s: Session, r: Session, opens: bool, refuses: bool) {
    && (r.f != NoFile <==> s.f != NoFile || opens)
    && (r.sendingfile <==> s.sendingfile || opens || refuses)
    && (refuses ==> r.destroy)
  }

  lemma ServeTracks(r: Reaction, q: Request, env: Env)
    ensures var s := Serve(r, q, env).ses; var path := PathOf(q.filename, env);
      && (s.f != NoFile <==> r.ses.f != NoFile || (path in env.readable && !IsTsize(q.opt)))
      && (s.sendingfile <==> r.ses.sendingfile || (path in env.readable && !IsTsize(q.opt)))
      && (path !in env.readable ==> s.destroy)
  {
    hide ErrorPacket, OackPacket, DataPacket, PathOf, IsTsize, Decimal, Fread;
  }

  lemma ReadRequestTracks(s: Session, d: seq<Byte>, env: Env)
    requires HasOpcode(d, 1)
    ensures Tracks(s, OnReadRequest(s, ParseRequest(Buffer(d)), env).ses, OpensFile(d, env), RefusedNegotiation(d, env))
  {
    hide ErrorPacket, OackPacket, PathOf, IsMail, IsBlksize, IsTsize, Strtol, ParseRequest, Serve;
    var q := ParseRequest(Buffer(d));
    BlksizeIsNotTsize(q.opt);
    if IsBlksize(q.opt) {
      match Strtol(q.param)
      case OutOfRange =>
      case InRange(size) =>
        if 8 <= size <= 65464 {
          var r := Emit(Reaction(s, []), OackPacket(q.opt, q.param));
          ServeTracks(r.(ses := r.ses.(sendingfile := true, currentblockno := 0, actualblockno := 0, blksize := size)), q, env);
        }
    } else {
      ServeTracks(Reaction(s, []), q, env);
    }
  }

  lemma WriteRequestTracks(s: Session, d: seq<Byte>, env: Env)
    requires HasOpcode(d, 2)
    ensures Tracks(s, OnWriteRequest(s, ParseRequest(Buffer(d)), env).ses, IsWriteRequest(d, env), false)
  {
    hide ErrorPacket, AckPacket, PathOf, IsMail, ParseRequest;
  }

  lemma TransferTracks(s: Session, d: seq<Byte>)
    requires |d| <= PKTLEN
    ensures Tracks(s, OnData(s, d).ses, false, false) && Tracks(s, OnAck(s).ses, false, false)
    ensures Tracks(s, OnError(s).ses, false, false)
  {
    hide DataPacket, AckPacket, Fread;
  }

  lemma ReactTracks(s: Session, d: seq<Byte>, env: Env)
    requires |d| <= PKTLEN
    ensures Tracks(s, React(s, d, env).ses, OpensFile(d, env), RefusedNegotiation(d, env))
  {
    hide OnData, OnAck, OnError, OnReadRequest, OnWriteRequest, ParseRequest, IsMail, PathOf, ModeOf;
    TransferTracks(Settle(s), d);
    if HasOpcode(d, 1) {
      ReadRequestTracks(Settle(s), d, env);
    } else if HasOpcode(d, 2) {
      WriteRequestTracks(Settle(s), d, env);
    }
  }

  // ---------- Along the steps of a peer ----------

  ghost predicate Opens(e: Step) {
    e.Got? && OpensFile(e.d, e.env)
  }

  ghost predicate Refuses(e: Step) {
    e.Got? && RefusedNegotiation(e.d, e.env)
  }

  /** The step that made the present client; behind the last step when there is none. */
  function LiveSince(fd: int, es: seq<Step>): (n: nat)
    requires StepsFit(es)
    ensures n <= |es|
  {
    if es == [] || AloneRun(fd, es).client.None? then |es|
    else LiveSince(fd, es[..|es| - 1])
  }

  ghost predicate OpenedSince(es: seq<Step>, from: nat) {
    exists i :: from <= i < |es| && Opens(es[i])
  }

  ghost predicate RefusedSince(es: seq<Step>, from: nat) {
    exists i :: from <= i < |es| && Refuses(es[i])
  }

  /** No flush pass visited the client after step j. */
  ghost predicate UnflushedSince(es: seq<Step>, j: nat) {
    forall i :: j < i < |es| ==> !es[i].Flushed?
  }

  lemma SinceSnoc(es: seq<Step>, from: nat)
    requires es != [] && from < |es|
    ensures var before, e := es[..|es| - 1], es[|es| - 1];
      && (OpenedSince(es, from) <==> OpenedSince(before, from) || Opens(e))
      && (RefusedSince(es, from) <==> RefusedSince(before, from) || Refuses(e))
  {
    hide Opens, Refuses;
    var before, e := es[..|es| - 1], es[|es| - 1];
    if OpenedSince(before, from) {
      var i :| from <= i < |before| && Opens(before[i]);
      assert Opens(es[i]);
    }
    if RefusedSince(before, from) {
      var i :| from <= i < |before| && Refuses(before[i]);
      assert Refuses(es[i]);
    }
    if OpenedSince(es, from) && !Opens(e) {
      var i :| from <= i < |es| && Opens(es[i]);
      assert Opens(before[i]);
    }
    if RefusedSince(es, from) && !Refuses(e) {
      var i :| from <= i < |es| && Refuses(es[i]);
      assert Refuses(before[i]);
    }
  }

  /** What the steps since a client was made say about it. */
  ghost predicate Explained(s: Session, es: seq<Step>, from: nat) {
    && s.waiting == 0
    && (s.f != NoFile <==> OpenedSince(es, from))
    && (s.sendingfile <==> OpenedSince(es, from) || RefusedSince(es, from))
    && (RefusedSince(es, from) ==> s.destroy)
    && forall j :: from <= j < |es| && Refuses(es[j]) ==> UnflushedSince(es, j)
  }

  lemma GotExplained(s: Session, es: seq<Step>, from: nat)
    requires es != [] && from < |es| && es[|es| - 1].Got? && StepFits(es[|es| - 1])
    requires Explained(s, es[..|es| - 1], from)
    ensures Explained(React(s, es[|es| - 1].d, es[|es| - 1].env).ses, es, from)
  {
    hide React, OpensFile, RefusedNegotiation, Recognised;
    var before, e := es[..|es| - 1], es[|es| - 1];
    ReactTracks(s, e.d, e.env);
    ReactFollows(s, e.d, e.env);
    SinceSnoc(es, from);
    forall j | from <= j < |es| && Refuses(es[j])
      ensures UnflushedSince(es, j)
    {
      if j < |before| {
        assert Refuses(before[j]);
        assert UnflushedSince(before, j);
        assert forall i :: j < i < |before| ==> es[i] == before[i];
      }
    }
  }

  lemma PassExplained(s: Session, es: seq<Step>, from: nat)
    requires es != [] && from < |es| && !es[|es| - 1].Got?
    requires Explained(s, es[..|es| - 1], from)
    requires es[|es| - 1].Flushed? ==> !s.destroy
    ensures Explained(s, es, from)
  {
    hide OpensFile, RefusedNegotiation;
    var before, e := es[..|es| - 1], es[|es| - 1];
    SinceSnoc(es, from);
    forall j | from <= j < |es| && Refuses(es[j])
      ensures UnflushedSince(es, j)
    {
      assert Refuses(before[j]);
      assert RefusedSince(before, from);
      assert UnflushedSince(before, j);
      assert forall i :: j < i < |before| ==> es[i] == before[i];
    }
  }

  lemma FreshExplained(es: seq<Step>)
    ensures Explained(FreshSession, es, |es|)
  {
  }

  lemma {:induction false} StepsExplainClient(fd: int, es: seq<Step>)
    requires StepsFit(es)
    ensures var c := AloneRun(fd, es).client;
      c.Some? ==> LiveSince(fd, es) < |es| && Explained(c.value.ses, es, LiveSince(fd, es))
    decreases |es|
  {
    hide React, Deliver, Explained, QueuedBytes;
    if es != [] && AloneRun(fd, es).client.Some? {
      var before, e := es[..|es| - 1], es[|es| - 1];
      var a := AloneRun(fd, before);
      StepsExplainClient(fd, before);
      assert AloneRun(fd, es) == AloneNext(fd, a, e);
      var from := LiveSince(fd, before);
      if e.Got? {
        var c := if a.client.None? then NewClient(fd, e.addr) else a.client.value;
        if a.client.None? {
          FreshExplained(before);
        }
        assert Explained(c.ses, before, from);
        DeliverOutput(c, Input(e.d, e.env), e.now);
        GotExplained(c.ses, es, from);
      } else {
        ExplainedIsUnarmed(a.client.value.ses, before, from);
        PassExplained(a.client.value.ses, es, from);
      }
    }
  }

  lemma ExplainedIsUnarmed(s: Session, es: seq<Step>, from: nat)
    requires Explained(s, es, from)
    ensures s.waiting == 0
  {
  }

  // ---------- Exactly when ----------

  /** Step j is a refused negotiation of the present client, not yet flushed away, and no request opened a file. */
  ghost predicate AwaitsFlush(fd: int, es: seq<Step>, j: int)
    requires StepsFit(es)
  {
    && LiveSince(fd, es) <= j < |es| && Refuses(es[j]) && UnflushedSince(es, j)
    && !OpenedSince(es, LiveSince(fd, es))
  }

  /**
   In any run of the server, the next datagram of a peer makes the code work on a NULL stream if and only
   if it is an ACK or DATA packet that arrives between a refused block size negotiation and the flush
   pass that visits the client, none of the client's requests having opened a file.
   */
  lemma NullFileIsTouchedExactly(listeners: seq<Socket>, evs: seq<Event>, k: Key, d: seq<Byte>)
    requires AllSensible(evs) && k.port != LOST_PORT
    ensures var c := ClientOf(Run(listeners, evs).clients, k); var es := StepsOf(listeners, evs, k);
      TouchesNull(if c.Some? then c.value.ses else FreshSession, d) <==>
        IsTransferPacket(d) && exists j :: AwaitsFlush(k.fd, es, j)
  {
    hide Run, ClientOf, SentTo, StepsOf, Refuses, Opens, IsTransferPacket, AloneRun;
    var es := StepsOf(listeners, evs, k);
    SessionsAreIsolated(listeners, evs, k);
    StepsExplainClient(k.fd, es);
    var c, from := ClientOf(Run(listeners, evs).clients, k), LiveSince(k.fd, es);
    if c.Some? && RefusedSince(es, from) && !OpenedSince(es, from) {
      var j :| from <= j < |es| && Refuses(es[j]);
      assert AwaitsFlush(k.fd, es, j);
    }
    if j :| AwaitsFlush(k.fd, es, j) {
      assert RefusedSince(es, from);
    }
  }

  /** And it happens: a well-formed block size request for a file that cannot be opened, then any acknowledgement. */
  lemma NullFileIsReachable(
      fd: int, addr: Address, filename: seq<Byte>, mode: seq<Byte>, size: nat, env: Env, now: int, ack: seq<Byte>)
    requires NulFree(filename) && NulFree(mode) && !IsMail(mode) && 8 <= size <= 65464 && IsAck(ack)
    requires PathOf(filename, env) !in env.readable
    requires |EncodeRequest(1, filename, mode, WithOption(Ascii("blksize"), Decimal(size)))| <= 516
    ensures var d := EncodeRequest(1, filename, mode, WithOption(Ascii("blksize"), Decimal(size)));
      && |d| <= PKTLEN
      && var a := AloneNext(fd, Alone(None, []), Got(addr, d, env, now));
        a.client.Some? && TouchesNull(a.client.value.ses, ack)
  {
    hide EncodeRequest, ParseRequest, Decimal, PathOf, IsMail, React, Deliver;
    StrtolOfDecimal(size);
    ParseOfEncode(1, filename, mode, WithOption(Ascii("blksize"), Decimal(size)));
    var d := EncodeRequest(1, filename, mode, WithOption(Ascii("blksize"), Decimal(size)));
    var q := ParseRequest(Buffer(d));
    BlksizeIsNotTsize(q.opt);
    assert RefusedNegotiation(d, env);
    ReactTracks(FreshSession, d, env);
    var c := NewClient(fd, addr);
    assert c.ses == FreshSession;
    DeliverOutput(c, Input(d, env), now);
  }
}
