/** A peer that reports an error: its client says goodbye with one last packet, and goes with the next flush that visits it. */
module Aborts {
  import opened Options
  import opened Bytes
  import opened Wire
  import opened Requests
  import opened Sessions
  import opened Clients
  import opened Servers
  import opened Pools
  import opened Isolation
  import opened ReadSafety
  import opened Reactions

  /** In this continuation the key's peer sends nothing, and no flush pass visits its client. */
  ghost predicate LeftAlone(listeners: seq<Socket>, evs: seq<Event>, more: seq<Event>, k: Key)
    requires AllSensible(evs + more)
  {
    if more == [] then true
    else
      var before, e := evs + more[..|more| - 1], more[|more| - 1];
      assert before == (evs + more)[..|before|];
      && LeftAlone(listeners, evs, more[..|more| - 1], k)
      && (e.Datagram? ==> KeyOf(e.fd, e.addr) != k)
      && (e.SendPass? ==> !FlushVisits(Run(listeners, before).clients, k))
  }

  /** A client that is not armed is not touched by retry passes. */
  lemma UnarmedIsLeft(listeners: seq<Socket>, evs: seq<Event>, e: Event, k: Key)
    requires AllSensible(evs) && Sensible(e) && k.port != LOST_PORT
    requires e.Datagram? ==> KeyOf(e.fd, e.addr) != k
    requires e.SendPass? ==> !FlushVisits(Run(listeners, evs).clients, k)
    requires var c := ClientOf(Run(listeners, evs).clients, k); c.Some? && c.value.ses.waiting == 0
    ensures AllSensible(evs + [e]) && KeySide(Run(listeners, evs + [e]), k) == KeySide(Run(listeners, evs), k)
  {
    hide Run, ClientOf, SentTo, KeyOf, FlushVisits, CheckedAt;
    KeySideSnoc(listeners, evs, e, k);
  }

  lemma {:induction false} LeftAloneKeeps(listeners: seq<Socket>, evs: seq<Event>, more: seq<Event>, k: Key)
    requires AllSensible(evs) && AllSensible(evs + more) && k.port != LOST_PORT && LeftAlone(listeners, evs, more, k)
    requires var c := ClientOf(Run(listeners, evs).clients, k); c.Some? && c.value.ses.waiting == 0
    ensures KeySide(Run(listeners, evs + more), k) == KeySide(Run(listeners, evs), k)
    decreases |more|
  {
    hide Run, ClientOf, SentTo, KeyOf, FlushVisits, Sensible;
    if more == [] {
      assert evs + more == evs;
    } else {
      var before, e := evs + more[..|more| - 1], more[|more| - 1];
      assert before == (evs + more)[..|before|] && evs + more == before + [e];
      assert (evs + more)[|evs + more| - 1] == e;
      LeftAloneKeeps(listeners, evs, more[..|more| - 1], k);
      UnarmedIsLeft(listeners, before, e, k);
    }
  }

  /** What an ERROR datagram makes of its sender's side. */
  lemma ErrorIsHeard(listeners: seq<Socket>, evs: seq<Event>, e: Event)
    requires AllSensible(evs) && e.Datagram? && HasOpcode(e.d, 5) && KeyOf(e.fd, e.addr).port != LOST_PORT
    ensures Sensible(e) && AllSensible(evs + [e])
    ensures var k := KeyOf(e.fd, e.addr); var v, w := Run(listeners, evs), Run(listeners, evs + [e]);
      var c := ClientOf(w.clients, k);
      && SentTo(w.wire, k) == SentTo(v.wire, k)
      && c.Some? && c.value.ses.destroy && c.value.ses.waiting == 0
      && QueuedBytes(c.value.queue) == Pending(ClientOf(v.clients, k)) + [[0, 4, 0, 1]]
  {
    hide Run, ClientOf, SentTo, KeyOf, Deliver, QueuedBytes, React, NewClient;
    var k := KeyOf(e.fd, e.addr);
    ErrorIsSensible(e);
    KeyDescriptor(e.fd, e.addr);
    KeySideSnoc(listeners, evs, e, k);
    NothingQueuedYet(e.fd, e.addr);
    var c := ClientOf(Run(listeners, evs).clients, k);
    var before := if c.None? then NewClient(e.fd, e.addr) else c.value;
    ErrorEndsTransfer(before.ses, e.d, e.env);
    DeliverOutput(before, Input(e.d, e.env), e.now);
  }

  lemma ErrorIsSensible(e: Event)
    requires e.Datagram? && HasOpcode(e.d, 5)
    ensures Sensible(e) && |e.d| <= PKTLEN
  {
  }

  /**
   An ERROR from a peer, at any point of any run: whatever else happens, the next flush pass that visits
   its client sends what was queued for it, then the acknowledgement of block 1, and removes the client.
   */
  lemma ErrorEndsSession(listeners: seq<Socket>, evs: seq<Event>, e: Event, more: seq<Event>)
    requires AllSensible(evs) && e.Datagram? && HasOpcode(e.d, 5) && KeyOf(e.fd, e.addr).port != LOST_PORT
    requires AllSensible(evs + [e] + more) && LeftAlone(listeners, evs + [e], more, KeyOf(e.fd, e.addr))
    requires FlushVisits(Run(listeners, evs + [e] + more).clients, KeyOf(e.fd, e.addr))
    ensures AllSensible(evs + [e] + more + [SendPass])
    ensures var k := KeyOf(e.fd, e.addr); var v, w := Run(listeners, evs), Run(listeners, evs + [e] + more + [SendPass]);
      && SentTo(w.wire, k) == SentTo(v.wire, k) + Pending(ClientOf(v.clients, k)) + [[0, 4, 0, 1]]
      && ClientOf(w.clients, k) == None
  {
    hide Run, ClientOf, SentTo, KeyOf, FlushVisits, QueuedBytes, Pending, LeftAlone, Emptied;
    var k := KeyOf(e.fd, e.addr);
    ErrorIsHeard(listeners, evs, e);
    LeftAloneKeeps(listeners, evs + [e], more, k);
    KeySideSnoc(listeners, evs + [e] + more, SendPass, k);
  }
}
