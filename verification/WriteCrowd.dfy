/** The lock-step write transfer inside the whole server, among any other traffic. */
module WriteCrowd {
  import opened Options
  import opened Bytes
  import opened Wire
  import opened Requests
  import opened Sessions
  import opened Clients
  import opened Servers
  import opened Pools
  import opened ReadTransfers
  import opened WriteTransfers
  import opened Isolation

  function KeyIn(t: Setting): Key {
    KeyOf(t.fd, t.addr)
  }

  /** The content of the write stream that a flush pass closed for this key last. */
  function ClosedContent(listeners: seq<Socket>, evs: seq<Event>, k: Key): Option<seq<Byte>>
    requires AllSensible(evs)
  {
    if evs == [] then None
    else
      var before := evs[..|evs| - 1];
      var cs := Run(listeners, before).clients;
      var c := ClientOf(cs, k);
      if evs[|evs| - 1].SendPass? && FlushVisits(cs, k) && c.Some? && c.value.ses.destroy && c.value.ses.f.WriteFile?
      then Some(c.value.ses.f.content)
      else ClosedContent(listeners, before, k)
  }

  /** A run of the server with one sender: what happened, what is under way to the server, how much the sender read. */
  datatype Crowd = Crowd(evs: seq<Event>, toServer: seq<seq<Byte>>, taken: nat, sender: Sender)

  datatype Move =
    | SenderDelivers(now: int)  // the server receives the sender's packet
    | Traffic(e: Event)         // any pass, any datagram of another peer
    | SenderReads               // the sender takes the next packet sent to it

  ghost predicate GoodCrowd(listeners: seq<Socket>, t: Setting, x: Crowd) {
    AllSensible(x.evs) && x.taken <= |SentTo(Run(listeners, x.evs).wire, KeyIn(t))|
  }

  /** A transfer seen from outside: the key's side, the file it closed last, and the sender's side of the crowd. */
  function Shown(side: Alone, closed: Option<seq<Byte>>, x: Crowd): Transfer
    requires x.taken <= |side.sent|
  {
    Transfer(side, closed, x.toServer, side.sent[x.taken..], x.sender)
  }

  /** The transfer a crowd amounts to for the sender and its key. */
  ghost function Abstract(listeners: seq<Socket>, t: Setting, x: Crowd): Transfer
    requires GoodCrowd(listeners, t, x)
  {
    Shown(KeySide(Run(listeners, x.evs), KeyIn(t)), ClosedContent(listeners, x.evs, KeyIn(t)), x)
  }

  /** May this event happen beside the transfer? */
  predicate Foreign(t: Setting, e: Event) {
    Sensible(e) && (e.Datagram? ==> KeyOf(e.fd, e.addr) != KeyIn(t))
  }

  ghost function Moved(listeners: seq<Socket>, t: Setting, x: Crowd, m: Move): (y: Crowd)
    requires |t.request| <= PKTLEN && GoodCrowd(listeners, t, x)
    ensures AllSensible(y.evs)
  {
    match m
    case SenderDelivers(now) =>
      if x.toServer == [] || !HeaderFits(true, x.toServer[0]) then x
      else x.(evs := x.evs + [Datagram(t.fd, t.addr, x.toServer[0], t.env, now)], toServer := x.toServer[1..])
    case Traffic(e) => if Foreign(t, e) then x.(evs := x.evs + [e]) else x
    case SenderReads =>
      var y := SenderTakes(t, Abstract(listeners, t, x));
      if Abstract(listeners, t, x).toSender == [] then x else Crowd(x.evs, y.toServer, x.taken + 1, y.sender)
  }

  // ---------- One more event, seen by the key ----------

  lemma ClosedSnoc(listeners: seq<Socket>, evs: seq<Event>, e: Event, k: Key)
    requires AllSensible(evs) && Sensible(e)
    ensures AllSensible(evs + [e])
    ensures var cs := Run(listeners, evs).clients; var c := ClientOf(cs, k);
      ClosedContent(listeners, evs + [e], k) ==
        if e.SendPass? && FlushVisits(cs, k) && c.Some? && c.value.ses.destroy && c.value.ses.f.WriteFile?
        then Some(c.value.ses.f.content) else ClosedContent(listeners, evs, k)
  {
    hide Run, FlushVisits, ClientOf;
    assert (evs + [e])[..|evs|] == evs;
  }

  // ---------- Every move is an action of the transfer, or none ----------

  lemma LockStepPacketsFit(t: Setting, x: Transfer)
    requires Granted(t) && |t.request| <= PKTLEN && LockStep(t, x) && x.toServer != []
    ensures HeaderFits(true, x.toServer[0])
  {
    hide AckPacket, AckPackets, Blocks, Cut, DataPacket;
    var k := x.sender.sent;
    assert x.toServer[0] == SenderPacket(t, k);
    if k > 0 {
      ShortBlock(t.src, BLOCK, k);
      DataFields(k % 0x1_0000, Block(t.src, BLOCK, k));
      DataHasHeader(k % 0x1_0000, Block(t.src, BLOCK, k));
    } else {
      RequestIsShort(t);
    }
  }

  lemma DataHasHeader(no: U16, payload: seq<Byte>)
    ensures |DataPacket(no, payload)| >= 4
  {
  }

  lemma DeliveryIsAction(listeners: seq<Socket>, t: Setting, x: Crowd, now: int)
    requires Granted(t) && |t.request| <= PKTLEN && KeyIn(t).port != LOST_PORT
    requires GoodCrowd(listeners, t, x) && LockStep(t, Abstract(listeners, t, x))
    ensures var y := Moved(listeners, t, x, SenderDelivers(now));
      GoodCrowd(listeners, t, y)
      && Abstract(listeners, t, y) == Act(t, Abstract(listeners, t, x), ServerReceives(now))
  {
    hide Run, ClientOf, SentTo, KeyOf, LockStep, Granted, Deliver, NewClient;
    if x.toServer != [] {
      var k := KeyIn(t);
      var e := Datagram(t.fd, t.addr, x.toServer[0], t.env, now);
      LockStepPacketsFit(t, Abstract(listeners, t, x));
      KeySideSnoc(listeners, x.evs, e, k);
      ClosedSnoc(listeners, x.evs, e, k);
      KeyDescriptor(t.fd, t.addr);
    }
  }

  /** What foreign traffic does to the transfer: at most a flush or a retry step of its own client. */
  ghost function ActionsOf(steps: seq<Step>): (actions: seq<Action>)
    ensures |actions| <= 1
  {
    if steps == [] || steps[0].Got? then []
    else if steps[0].Flushed? then [ServerFlushes]
    else [ServerChecks(steps[0].at)]
  }

  ghost function ActAll(t: Setting, x: Transfer, actions: seq<Action>): Transfer
    requires |t.request| <= PKTLEN && |actions| <= 1
  {
    if actions == [] then x else Act(t, x, actions[0])
  }

  /** What a flush of the key's side closes. */
  function ClosedBy(side: Alone, closed: Option<seq<Byte>>): Option<seq<Byte>> {
    if side.client.Some? && side.client.value.ses.destroy && side.client.value.ses.f.WriteFile?
    then Some(side.client.value.ses.f.content) else closed
  }

  lemma FlushShown(t: Setting, side: Alone, closed: Option<seq<Byte>>, x: Crowd)
    requires x.taken <= |side.sent|
    ensures var after := AloneNext(t.fd, side, Flushed);
      x.taken <= |after.sent| && ServerSends(t, Shown(side, closed, x)) == Shown(after, ClosedBy(side, closed), x)
  {
    hide QueuedBytes, Emptied;
    if side.client.Some? {
      var queued := QueuedBytes(side.client.value.queue);
      assert (side.sent + queued)[x.taken..] == side.sent[x.taken..] + queued;
    } else {
      assert side.sent[x.taken..] + [] == side.sent[x.taken..];
    }
  }

  lemma CheckShown(t: Setting, side: Alone, closed: Option<seq<Byte>>, x: Crowd, at: Reading)
    requires |t.request| <= PKTLEN && x.taken <= |side.sent|
    ensures var after := AloneNext(t.fd, side, Checked(at));
      x.taken <= |after.sent| && Act(t, Shown(side, closed, x), ServerChecks(at)) == Shown(after, closed, x)
  {
    hide Expired, Resent;
  }

  lemma TrafficIsAction(listeners: seq<Socket>, t: Setting, x: Crowd, e: Event)
    requires |t.request| <= PKTLEN && KeyIn(t).port != LOST_PORT && GoodCrowd(listeners, t, x) && Foreign(t, e)
    ensures var y := Moved(listeners, t, x, Traffic(e));
      GoodCrowd(listeners, t, y)
      && Abstract(listeners, t, y) == ActAll(t, Abstract(listeners, t, x), ActionsOf(StepsBy(Run(listeners, x.evs).clients, e, KeyIn(t))))
  {
    hide Run, ClientOf, SentTo, KeyOf, FlushVisits, CheckedAt, AloneNext, ServerSends, ClosedContent, Act, Sensible;
    var k := KeyIn(t);
    var cs, side, closed := Run(listeners, x.evs).clients, KeySide(Run(listeners, x.evs), k), ClosedContent(listeners, x.evs, k);
    KeySideSnoc(listeners, x.evs, e, k);
    ClosedSnoc(listeners, x.evs, e, k);
    KeyDescriptor(t.fd, t.addr);
    match e
    case Datagram(_, _, _, _, _) =>
    case SendPass =>
      if FlushVisits(cs, k) {
        FlushShown(t, side, closed, x);
        FlushIsAct(t, Abstract(listeners, t, x));
      }
    case CheckPass(clock) =>
      var at := CheckedAt(cs, clock, 0, k);
      if at.Some? {
        CheckShown(t, side, closed, x, at.value);
      }
  }

  lemma FlushIsAct(t: Setting, x: Transfer)
    requires |t.request| <= PKTLEN
    ensures Act(t, x, ServerFlushes) == ServerSends(t, x)
  {
  }

  lemma ReadingIsAction(listeners: seq<Socket>, t: Setting, x: Crowd)
    requires |t.request| <= PKTLEN && GoodCrowd(listeners, t, x)
    ensures var y := Moved(listeners, t, x, SenderReads);
      GoodCrowd(listeners, t, y)
      && Abstract(listeners, t, y) == Act(t, Abstract(listeners, t, x), SenderReceives)
  {
    hide Run, ClientOf, SentTo, KeyOf, Decode, SenderPacket, Block;
    var sent := SentTo(Run(listeners, x.evs).wire, KeyIn(t));
    if x.taken < |sent| {
      assert sent[x.taken..][1..] == sent[x.taken + 1..];
    }
  }

  // ---------- Runs ----------

  /** The crowd after these moves; every intermediate one is good. */
  ghost predicate Leads(listeners: seq<Socket>, t: Setting, moves: seq<Move>, x: Crowd)
    requires |t.request| <= PKTLEN
  {
    if moves == [] then x == Crowd([], [t.request], 0, Sender(0, false))
    else
      exists w :: Leads(listeners, t, moves[..|moves| - 1], w) && GoodCrowd(listeners, t, w)
        && x == Moved(listeners, t, w, moves[|moves| - 1])
  }

  lemma ReachSnoc1(t: Setting, actions: seq<Action>, more: seq<Action>)
    requires |t.request| <= PKTLEN && |more| <= 1
    ensures Reach(t, actions + more) == ActAll(t, Reach(t, actions), more)
  {
    hide Act;
    if more == [] {
      assert actions + more == actions;
    } else {
      assert actions + more == actions + [more[0]];
      ReachSnoc(t, actions, more[0]);
    }
  }

  /** In any run of the whole server, with any other traffic, the sender's transfer is one of the lone peer. */
  lemma {:induction false} CrowdRefinesTransfer(listeners: seq<Socket>, t: Setting, moves: seq<Move>, x: Crowd)
    returns (actions: seq<Action>)
    requires Granted(t) && |t.request| <= PKTLEN && KeyIn(t).port != LOST_PORT && Leads(listeners, t, moves, x)
    ensures GoodCrowd(listeners, t, x) && Abstract(listeners, t, x) == Reach(t, actions)
    decreases |moves|
  {
    hide Run, ClientOf, SentTo, KeyOf, LockStep, Granted, Act, Moved, ActionsOf, StepsBy;
    if moves == [] {
      actions := [];
      CrowdStarts(listeners, t);
    } else {
      var w :| Leads(listeners, t, moves[..|moves| - 1], w) && GoodCrowd(listeners, t, w)
        && x == Moved(listeners, t, w, moves[|moves| - 1]);
      var before := CrowdRefinesTransfer(listeners, t, moves[..|moves| - 1], w);
      WriteTransferIsCorrect(t, before);
      var more: seq<Action>;
      match moves[|moves| - 1] {
      case SenderDelivers(now) =>
        DeliveryIsAction(listeners, t, w, now);
        more := [ServerReceives(now)];
      case Traffic(e) =>
        if Foreign(t, e) {
          TrafficIsAction(listeners, t, w, e);
          more := ActionsOf(StepsBy(Run(listeners, w.evs).clients, e, KeyIn(t)));
        } else {
          more := [];
          assert x == w by { NotForeign(listeners, t, w, e); }
        }
      case SenderReads =>
        ReadingIsAction(listeners, t, w);
        more := [SenderReceives];
      }
      actions := before + more;
      ReachSnoc1(t, before, more);
    }
  }

  lemma NotForeign(listeners: seq<Socket>, t: Setting, x: Crowd, e: Event)
    requires |t.request| <= PKTLEN && GoodCrowd(listeners, t, x) && !Foreign(t, e)
    ensures Moved(listeners, t, x, Traffic(e)) == x
  {
  }

  lemma CrowdStarts(listeners: seq<Socket>, t: Setting)
    requires |t.request| <= PKTLEN
    ensures var x := Crowd([], [t.request], 0, Sender(0, false));
      GoodCrowd(listeners, t, x) && Abstract(listeners, t, x) == Reach(t, [])
  {
    assert SentTo([], KeyIn(t)) == [];
  }

  /**
   Write transfer in any run of the whole server. Whatever other peers send and whenever passes run: what
   was sent to the writing peer is acknowledgements 0, 1, 2, ... mod 65536; while its client lives, the
   open file is a prefix of the source, complete once marked destroy; and when a flush pass closes the
   file, or the sender is done, the closed file is the source.
   */
  lemma WriteTransferInTheCrowd(listeners: seq<Socket>, t: Setting, moves: seq<Move>, x: Crowd)
    requires Granted(t) && |t.request| <= PKTLEN && KeyIn(t).port != LOST_PORT && Leads(listeners, t, moves, x)
    ensures AllSensible(x.evs)
    ensures var v, k := Run(listeners, x.evs), KeyIn(t);
      var c, closed := ClientOf(v.clients, k), ClosedContent(listeners, x.evs, k);
      && SentTo(v.wire, k) == AckPackets(|SentTo(v.wire, k)|)
      && (c.Some? ==> var s := c.value.ses;
            s.f.WriteFile? && s.f.content <= t.src && (s.destroy ==> s.f.content == t.src))
      && (closed.Some? ==> closed == Some(t.src))
      && (x.sender.finished ==> closed == Some(t.src))
  {
    hide Run, ClientOf, SentTo, KeyOf, LockStep, Granted, AckPackets, ClosedContent, Leads;
    var actions := CrowdRefinesTransfer(listeners, t, moves, x);
    WriteTransferIsCorrect(t, actions);
  }
}
