/** The retry counter, the remembered packet, and what every run keeps true of every client. */
module Retransmission {
  import opened Options
  import opened Bytes
  import opened Requests
  import opened Sessions
  import opened Clients
  import opened Servers
  import opened Isolation
  import opened ReadTransfers

  // ---------- Every client in every run ----------

  /** Sound, never armed (arming is commented out in QueuePacket), and with its queue inside its capacity. */
  ghost predicate Healthy(c: ClientState) {
    Sound(c.ses) && c.ses.waiting == 0 && |c.queue| <= c.capacity
  }

  ghost predicate AllHealthy(cs: seq<ClientState>) {
    forall i :: 0 <= i < |cs| ==> Healthy(cs[i])
  }

  lemma DeliverKeepsHealthy(c: ClientState, d: seq<Byte>, env: Env, now: int)
    requires |d| <= PKTLEN && Healthy(c)
    ensures Healthy(Deliver(c, d, env, now))
  {
    hide React, Sound;
    ReactFollows(c.ses, d, env);
    EnqueueAllAppends(c, React(c.ses, d, env).out, now);
  }

  lemma {:induction false} FlushKeepsHealthy(cs: seq<ClientState>, sockets: seq<Socket>)
    requires AllHealthy(cs)
    ensures AllHealthy(Flush(cs, sockets).kept)
    decreases |cs|
  {
    hide WithoutSocket, SentBy, Sound;
    if cs != [] {
      if !cs[0].ses.destroy {
        FlushKeepsHealthy(cs[1..], sockets);
      } else if |cs| > 1 {
        FlushKeepsHealthy(cs[2..], WithoutSocket(sockets, cs[0].s));
      }
    }
  }

  /** A retry pass over unarmed clients changes nothing at all. */
  lemma {:induction false} CheckLeavesUnarmed(cs: seq<ClientState>, sockets: seq<Socket>, clock: Clock, i: nat)
    requires forall j :: 0 <= j < |cs| ==> cs[j].ses.waiting == 0
    ensures Check(cs, sockets, clock, i) == Pass(cs, sockets, [])
    decreases |cs|
  {
    if cs != [] {
      CheckLeavesUnarmed(cs[1..], sockets, clock, i + 1);
      assert cs == [cs[0]] + cs[1..];
    }
  }

  /** Over every run: the state invariants hold of every client, and retransmission is never armed. */
  lemma {:induction false} RunsStayHealthy(listeners: seq<Socket>, evs: seq<Event>)
    requires AllSensible(evs)
    ensures AllHealthy(Run(listeners, evs).clients)
  {
    hide Deliver, Flush, Check, FindClient, Healthy;
    if evs != [] {
      var v, e := Run(listeners, evs[..|evs| - 1]), evs[|evs| - 1];
      RunsStayHealthy(listeners, evs[..|evs| - 1]);
      match e
      case Datagram(fd, addr, d, env, now) =>
        var (w, i) := Allocate(v, fd, addr);
        NewClientIsHealthy(fd, addr);
        DeliverKeepsHealthy(w.clients[i], d, env, now);
      case SendPass => FlushKeepsHealthy(v.clients, v.sockets);
      case CheckPass(clock) =>
        HealthyIsUnarmed(v.clients);
        CheckLeavesUnarmed(v.clients, v.sockets, clock, 0);
    }
  }

  lemma NewClientIsHealthy(fd: int, addr: Address)
    ensures Healthy(NewClient(fd, addr))
  {
  }

  lemma HealthyIsUnarmed(cs: seq<ClientState>)
    requires AllHealthy(cs)
    ensures forall i :: 0 <= i < |cs| ==> cs[i].ses.waiting == 0
  {
    assert forall i :: 0 <= i < |cs| ==> Healthy(cs[i]);
  }

  // ---------- The remembered packet ----------

  /** What a step appends to the queue of the client that is there before and after it. */
  function Appended(fd: int, a: Alone, e: Step): seq<Queued>
    requires StepFits(e)
  {
    var after := AloneNext(fd, a, e).client;
    if e.Flushed? || after.None? then []
    else
      var before := if a.client.None? then [] else a.client.value.queue;
      if |before| <= |after.value.queue| then after.value.queue[|before|..] else []
  }

  /** The present client's record: the packet it started with, and everything queued on it since. */
  datatype Record = Record(start: Queued, queued: seq<Queued>)

  function RecordOf(fd: int, a: Alone, es: seq<Step>): Record
    requires StepsFit(es)
  {
    if es == [] then Record(if a.client.Some? then a.client.value.ses.lastpacket else NoPacket, [])
    else
      var before, e := AloneFrom(fd, a, es[..|es| - 1]), es[|es| - 1];
      if before.client.None? then Record(NoPacket, Appended(fd, before, e))
      else
        var r := RecordOf(fd, a, es[..|es| - 1]);
        r.(queued := r.queued + Appended(fd, before, e))
  }

  /** The newest packet of a record that is not a resend; the one it started with when there is none. */
  function NewestFresh(start: Queued, queued: seq<Queued>): Queued {
    if queued == [] then start
    else if queued[|queued| - 1].mark != 2 then queued[|queued| - 1]
    else NewestFresh(start, queued[..|queued| - 1])
  }

  /** Every resend in the record repeats the newest fresh packet queued before it. */
  ghost predicate ResendsRepeat(r: Record) {
    forall i :: 0 <= i < |r.queued| && r.queued[i].mark == 2 ==>
      r.queued[i].bytes == NewestFresh(r.start, r.queued[..i]).bytes
  }

  lemma {:induction false} NewestOfFresh(start: Queued, queued: seq<Queued>, ps: seq<seq<Byte>>)
    ensures NewestFresh(start, queued + MarkFresh(ps)) ==
      if ps == [] then NewestFresh(start, queued) else Queued(ps[|ps| - 1], 1)
  {
    var q := queued + MarkFresh(ps);
    if ps == [] {
      assert q == queued;
    } else {
      assert q[|q| - 1] == MarkFresh(ps)[|ps| - 1];
    }
  }

  lemma FreshKeepsRepeat(r: Record, ps: seq<seq<Byte>>)
    requires ResendsRepeat(r)
    ensures ResendsRepeat(r.(queued := r.queued + MarkFresh(ps)))
  {
    var q := r.queued + MarkFresh(ps);
    forall i | 0 <= i < |q| && q[i].mark == 2
      ensures q[i].bytes == NewestFresh(r.start, q[..i]).bytes
    {
      assert i < |r.queued|;
      assert q[..i] == r.queued[..i];
    }
  }

  lemma ResendKeepsRepeat(r: Record, p: seq<Byte>)
    requires ResendsRepeat(r) && p == NewestFresh(r.start, r.queued).bytes
    ensures ResendsRepeat(r.(queued := r.queued + [Queued(p, 2)]))
    ensures NewestFresh(r.start, r.queued + [Queued(p, 2)]) == NewestFresh(r.start, r.queued)
  {
    var q := r.queued + [Queued(p, 2)];
    assert q[..|r.queued|] == r.queued;
    forall i | 0 <= i < |q| && q[i].mark == 2
      ensures q[i].bytes == NewestFresh(r.start, q[..i]).bytes
    {
      if i < |r.queued| {
        assert q[..i] == r.queued[..i];
      }
    }
  }

  /** What a datagram appends: the packets of the reaction, all fresh. */
  lemma GotAppends(fd: int, a: Alone, e: Step)
    requires StepFits(e) && e.Got?
    ensures var ses := if a.client.None? then FreshSession else a.client.value.ses;
      var r := React(ses, e.d, e.env); var c' := AloneNext(fd, a, e).client;
      c'.Some? && c'.value.ses == r.ses && Appended(fd, a, e) == MarkFresh(r.out)
  {
    hide React, Deliver;
    var c := if a.client.None? then NewClient(fd, e.addr) else a.client.value;
    assert c.ses == if a.client.None? then FreshSession else a.client.value.ses;
    assert c.queue == if a.client.None? then [] else a.client.value.queue;
    DeliverOutput(c, Input(e.d, e.env), e.now);
    var out := React(c.ses, e.d, e.env).out;
    assert (c.queue + MarkFresh(out))[|c.queue|..] == MarkFresh(out);
  }

  /** What the other steps append: nothing, or one resend of lastpacket. */
  lemma PassAppends(fd: int, a: Alone, e: Step)
    requires StepFits(e) && !e.Got?
    ensures var c' := AloneNext(fd, a, e).client; c'.Some? ==>
      && a.client.Some? && c'.value.ses.lastpacket == a.client.value.ses.lastpacket
      && Appended(fd, a, e) == if Resends(a, e) then [Queued(a.client.value.ses.lastpacket.bytes, 2)] else []
  {
  }

  /**
   From any client, armed or not, over any datagrams, flushes and retry passes: lastpacket is the packet
   queued fresh most recently, however many resends intervene, and every resend repeats that packet.
   */
  lemma {:induction false} LastPacketSurvivesResends(fd: int, a: Alone, es: seq<Step>)
    requires StepsFit(es) && (a.client.Some? ==> a.client.value.ses.lastpacket.mark != 2)
    ensures var c := AloneFrom(fd, a, es).client; var r := RecordOf(fd, a, es);
      c.Some? ==>
        && c.value.ses.lastpacket == NewestFresh(r.start, r.queued) && c.value.ses.lastpacket.mark != 2
        && ResendsRepeat(r)
    decreases |es|
  {
    hide React, AloneNext, Appended, ResendsRepeat, Resends;
    if es == [] {
      NothingRepeats(RecordOf(fd, a, es));
    } else {
      var before, e := AloneFrom(fd, a, es[..|es| - 1]), es[|es| - 1];
      var r := RecordOf(fd, a, es[..|es| - 1]);
      LastPacketSurvivesResends(fd, a, es[..|es| - 1]);
      if e.Got? {
        var ses := if before.client.None? then FreshSession else before.client.value.ses;
        GotAppends(fd, before, e);
        ReactFollows(ses, e.d, e.env);
        var out := React(ses, e.d, e.env).out;
        var was := if before.client.None? then Record(NoPacket, []) else r;
        NothingRepeats(Record(NoPacket, []));
        NewestOfFresh(was.start, was.queued, out);
        FreshKeepsRepeat(was, out);
        assert [] + MarkFresh(out) == MarkFresh(out);
      } else if AloneNext(fd, before, e).client.Some? {
        PassAppends(fd, before, e);
        if Resends(before, e) {
          ResendKeepsRepeat(r, before.client.value.ses.lastpacket.bytes);
        } else {
          assert r.queued + [] == r.queued;
        }
      }
    }
  }

  lemma NothingRepeats(r: Record)
    requires r.queued == []
    ensures ResendsRepeat(r)
  {
  }

  /** A resend, from any such state: one more copy of the packet queued fresh most recently, marked 2. */
  lemma ResendRepeatsNewest(fd: int, a: Alone, es: seq<Step>, at: Reading)
    requires StepsFit(es) && (a.client.Some? ==> a.client.value.ses.lastpacket.mark != 2)
    requires Resends(AloneFrom(fd, a, es), Checked(at))
    ensures var c := AloneFrom(fd, a, es).client.value; var c' := AloneNext(fd, AloneFrom(fd, a, es), Checked(at)).client;
      var r := RecordOf(fd, a, es);
      && c'.Some?
      && c'.value.queue == c.queue + [Queued(NewestFresh(r.start, r.queued).bytes, 2)]
      && c'.value.ses.waiting == c.ses.waiting + 1 && c'.value.nextresend == at.queued + 5
  {
    LastPacketSurvivesResends(fd, a, es);
  }

  /** QueuePacket's arming of the retry counter, as the commented-out assignment has it. */
  function Armed(c: ClientState): ClientState {
    c.(ses := c.ses.(waiting := if c.ses.waiting == 0 then 1 else c.ses.waiting))
  }

  /**
   Resends do happen in such runs. A client granted a read, flushed, then armed, is resent its opening
   packet by the first pass after its timeout, and the next flush sends it again.
   */
  lemma ArmedReaderIsResent(fd: int, addr: Address, d: seq<Byte>, env: Env, now: int, at: Reading, file: seq<Byte>, m: Mode)
    requires IsReadRequest(d, env, file, m) && now + 5 <= at.checked
    ensures |d| <= PKTLEN
    ensures var granted := AloneNext(fd, Alone(None, []), Got(addr, d, env, now));
      var sent := AloneNext(fd, granted, Flushed);
      && sent.client.Some? && sent.sent == Opening(file, m)
      && var armed := sent.(client := Some(Armed(sent.client.value)));
        && Resends(armed, Checked(at))
        && AloneFrom(fd, armed, [Checked(at), Flushed]).sent == Opening(file, m) + Opening(file, m)
  {
    hide React, Opening, IsReadRequest, Deliver, Serving, QueuedBytes;
    RequestFits(d, env, file, m);
    RequestOpens(d, env, file, m);
    var c := NewClient(fd, addr);
    var r := React(c.ses, d, env);
    assert c.ses == FreshSession && c.queue == [] && QueuedBytes([]) == [] by { QueuedNothing(); }
    DeliverOutput(c, Input(d, env), now);
    OpeningIsOnePacket(file, m);
    ReactFollows(FreshSession, d, env);
    var p := Opening(file, m)[0];
    var granted := AloneNext(fd, Alone(None, []), Got(addr, d, env, now));
    var sent := AloneNext(fd, granted, Flushed);
    assert [] + Opening(file, m) == Opening(file, m);
    var armed := sent.(client := Some(Armed(sent.client.value)));
    assert sent.client.value.nextresend == now + 5;
    assert armed.client.value.ses.lastpacket == Queued(p, 1);
    var es := [Checked(at), Flushed];
    assert es[..1] == [Checked(at)] && [Checked(at)][..0] == [];
    assert AloneFrom(fd, armed, [Checked(at)][..0]) == armed;
    var again := AloneNext(fd, armed, Checked(at));
    assert AloneFrom(fd, armed, [Checked(at)]) == again;
    assert again.client.value.queue == [Queued(p, 2)];
    assert QueuedBytes([Queued(p, 2)]) == [p] by { QueuedOne(p); }
    assert Opening(file, m) == [p];
  }

  lemma QueuedNothing()
    ensures QueuedBytes([]) == []
  {
  }

  lemma QueuedOne(p: seq<Byte>)
    ensures QueuedBytes([Queued(p, 2)]) == [p]
  {
  }

  lemma OpeningIsOnePacket(file: seq<Byte>, m: Mode)
    ensures |Opening(file, m)| == 1
  {
  }

  // ---------- The retry budget ----------

  /** Steps of a peer that has fallen silent. */
  ghost predicate Silent(es: seq<Step>) {
    forall i :: 0 <= i < |es| ==> !es[i].Got?
  }

  lemma SilentFits(es: seq<Step>)
    requires Silent(es)
    ensures StepsFit(es)
  {
  }

  /** Does this step resend? */
  predicate Resends(a: Alone, e: Step) {
    e.Checked? && a.client.Some? && Expired(a.client.value, e.at) && a.client.value.ses.waiting < 3
  }

  /** The clock readings of the resends of a run. */
  function ResendTimes(fd: int, a: Alone, es: seq<Step>): seq<Reading>
    requires StepsFit(es)
  {
    if es == [] then []
    else
      var before := es[..|es| - 1];
      ResendTimes(fd, a, before) +
      if Resends(AloneFrom(fd, a, before), es[|es| - 1]) then [es[|es| - 1].at] else []
  }

  /** Each resend at least 5 seconds after the one before it was queued, the first not before `due`. */
  ghost predicate Spaced(ts: seq<Reading>, due: int) {
    && (ts != [] ==> due <= ts[0].checked)
    && forall i :: 0 < i < |ts| ==> ts[i - 1].queued + 5 <= ts[i].checked
  }

  function Copies(p: seq<Byte>, n: nat): (r: seq<seq<Byte>>)
    ensures |r| == n
  {
    seq(n, _ => p)
  }

  /** An armed client after these resends. */
  ghost predicate Retried(c0: ClientState, c: ClientState, ts: seq<Reading>) {
    && c.ses == c0.ses.(waiting := c0.ses.waiting + |ts|)
    && c.nextresend == (if ts == [] then c0.nextresend else ts[|ts| - 1].queued + 5)
  }

  /** What has become of the client armed as c0, and of what was sent and queued for it, after these resends. */
  ghost predicate WithinBudget(c0: ClientState, sent: seq<seq<Byte>>, a: Alone, ts: seq<Reading>) {
    && |ts| <= 3 - c0.ses.waiting
    && Spaced(ts, c0.nextresend)
    && (a.client.None? ==> |ts| == 3 - c0.ses.waiting)
    && (a.client.Some? ==>
          && Retried(c0, a.client.value, ts)
          && a.sent + QueuedBytes(a.client.value.queue)
             == sent + QueuedBytes(c0.queue) + Copies(c0.ses.lastpacket.bytes, |ts|))
  }

  lemma BudgetKept(fd: int, c0: ClientState, sent: seq<seq<Byte>>, a: Alone, ts: seq<Reading>, e: Step)
    requires 1 <= c0.ses.waiting <= 3 && !c0.ses.destroy && !e.Got? && !Resends(a, e) && WithinBudget(c0, sent, a, ts)
    ensures WithinBudget(c0, sent, AloneNext(fd, a, e), ts)
  {
    hide QueuedBytes, Copies, Spaced, Resent;
    if a.client.Some? && e.Flushed? {
      QueueMoves(a.sent, a.client.value.queue);
    }
  }

  lemma BudgetSpent(fd: int, c0: ClientState, sent: seq<seq<Byte>>, a: Alone, ts: seq<Reading>, e: Step)
    requires 1 <= c0.ses.waiting <= 3 && Resends(a, e) && WithinBudget(c0, sent, a, ts)
    ensures WithinBudget(c0, sent, AloneNext(fd, a, e), ts + [e.at])
  {
    hide QueuedBytes, Copies, Spaced;
    SpacedSnoc(ts, c0.nextresend, e.at);
    OneMoreCopy(a.sent, a.client.value.queue, sent + QueuedBytes(c0.queue), c0.ses.lastpacket.bytes, |ts|);
  }

  lemma OneMoreStep(fd: int, a: Alone, es: seq<Step>, e: Step)
    requires StepsFit(es) && StepFits(e)
    ensures StepsFit(es + [e])
    ensures AloneFrom(fd, a, es + [e]) == AloneNext(fd, AloneFrom(fd, a, es), e)
    ensures ResendTimes(fd, a, es + [e]) == ResendTimes(fd, a, es) + if Resends(AloneFrom(fd, a, es), e) then [e.at] else []
  {
    hide AloneNext, Resends;
    assert (es + [e])[..|es|] == es;
  }

  /**
   The retry budget of a silent client armed with counter w in 1..3: at most 3 - w resends, at least 5
   seconds apart, each a copy of lastpacket; while it lives the counter is w plus the resends, and it is
   gone only after exactly 3 - w of them.
   */
  lemma {:induction false} SilentClientIsRetried(fd: int, c0: ClientState, sent: seq<seq<Byte>>, es: seq<Step>)
    requires Silent(es) && 1 <= c0.ses.waiting <= 3 && !c0.ses.destroy
    ensures StepsFit(es)
    ensures WithinBudget(c0, sent, AloneFrom(fd, Alone(Some(c0), sent), es), ResendTimes(fd, Alone(Some(c0), sent), es))
    decreases |es|
  {
    hide AloneNext, Resends, WithinBudget;
    SilentFits(es);
    var a0 := Alone(Some(c0), sent);
    if es == [] {
      assert WithinBudget(c0, sent, a0, []) by { FullBudget(c0, sent); }
    } else {
      var before, e := es[..|es| - 1], es[|es| - 1];
      SilentClientIsRetried(fd, c0, sent, before);
      var a, ts := AloneFrom(fd, a0, before), ResendTimes(fd, a0, before);
      assert ts + [] == ts;
      if Resends(a, e) {
        BudgetSpent(fd, c0, sent, a, ts, e);
      } else {
        BudgetKept(fd, c0, sent, a, ts, e);
      }
    }
  }

  lemma FullBudget(c0: ClientState, sent: seq<seq<Byte>>)
    requires 1 <= c0.ses.waiting <= 3
    ensures WithinBudget(c0, sent, Alone(Some(c0), sent), [])
  {
    hide QueuedBytes, Copies, Spaced;
    NoCopies(sent + QueuedBytes(c0.queue), c0.ses.lastpacket.bytes, c0.nextresend);
  }

  lemma NoCopies(all: seq<seq<Byte>>, p: seq<Byte>, due: int)
    ensures all == all + Copies(p, 0) && Spaced([], due)
  {
  }

  lemma QueueMoves(sent: seq<seq<Byte>>, q: seq<Queued>)
    ensures (sent + QueuedBytes(q)) + QueuedBytes([]) == sent + QueuedBytes(q)
  {
  }

  lemma OneMoreCopy(sent: seq<seq<Byte>>, q: seq<Queued>, all: seq<seq<Byte>>, p: seq<Byte>, n: nat)
    requires sent + QueuedBytes(q) == all + Copies(p, n)
    ensures sent + QueuedBytes(q + [Queued(p, 2)]) == all + Copies(p, n + 1)
  {
    assert QueuedBytes(q + [Queued(p, 2)]) == QueuedBytes(q) + [p];
    assert Copies(p, n + 1) == Copies(p, n) + [p];
    assert sent + (QueuedBytes(q) + [p]) == (sent + QueuedBytes(q)) + [p];
    assert all + (Copies(p, n) + [p]) == (all + Copies(p, n)) + [p];
  }

  lemma SpacedSnoc(ts: seq<Reading>, due: int, at: Reading)
    requires Spaced(ts, due) && (if ts == [] then due else ts[|ts| - 1].queued + 5) <= at.checked
    ensures Spaced(ts + [at], due)
  {
  }

  lemma ExpiryDecides(fd: int, a: Alone, at: Reading)
    requires a.client.Some? && a.client.value.ses.waiting != 0 && a.client.value.nextresend <= at.checked
    ensures Resends(a, Checked(at)) <==> a.client.value.ses.waiting < 3
    ensures AloneNext(fd, a, Checked(at)).client.None? <==> a.client.value.ses.waiting >= 3
  {
    hide Resent;
  }

  /** The next visited expiry: one more resend while the budget lasts, removal once it is spent. */
  lemma NextExpiryDecides(fd: int, c0: ClientState, sent: seq<seq<Byte>>, es: seq<Step>, at: Reading)
    requires Silent(es) && StepsFit(es) && 1 <= c0.ses.waiting <= 3 && !c0.ses.destroy
    requires var a := AloneFrom(fd, Alone(Some(c0), sent), es); a.client.Some? && a.client.value.nextresend <= at.checked
    ensures var a0 := Alone(Some(c0), sent); var n := |ResendTimes(fd, a0, es)|;
      && StepsFit(es + [Checked(at)])
      && (AloneFrom(fd, a0, es + [Checked(at)]).client.None? <==> n == 3 - c0.ses.waiting)
      && |ResendTimes(fd, a0, es + [Checked(at)])| == if n == 3 - c0.ses.waiting then n else n + 1
  {
    hide Spaced, Copies, QueuedBytes, AloneFrom, AloneNext, ResendTimes, Resends, Silent, StepsFit;
    var a0 := Alone(Some(c0), sent);
    SilentClientIsRetried(fd, c0, sent, es);
    OneMoreStep(fd, a0, es, Checked(at));
    ExpiryDecides(fd, AloneFrom(fd, a0, es), at);
  }
}
