/** The exact effect of one SendPackets pass, whose loop removes elements of the vector it steps through. */
module FlushPass {
  import opened Bytes
  import opened Sessions
  import opened Clients
  import opened Servers

  /** Which positions the pass visits: the first, then 1 past a kept client and 2 past a removed one. */
  function Visited(cs: seq<ClientState>): (mask: seq<bool>)
    ensures |mask| == |cs|
  {
    if cs == [] then []
    else if !cs[0].ses.destroy then [true] + Visited(cs[1..])
    else if |cs| == 1 then [true]
    else [true, false] + Visited(cs[2..])
  }

  /** A client is skipped exactly when its predecessor was visited and removed. */
  lemma {:induction false} SkippedIffPredecessorRemoved(cs: seq<ClientState>, i: nat)
    requires i < |cs|
    ensures Visited(cs)[i] <==> i == 0 || !(Visited(cs)[i - 1] && cs[i - 1].ses.destroy)
    decreases |cs|
  {
    if !cs[0].ses.destroy {
      if i > 0 {
        SkippedIffPredecessorRemoved(cs[1..], i - 1);
      }
    } else if i > 1 {
      SkippedIffPredecessorRemoved(cs[2..], i - 2);
    }
  }

  /** What a pass leaves of each client, given only whether it was visited. */
  function Survivors(cs: seq<ClientState>, mask: seq<bool>): seq<ClientState>
    requires |mask| == |cs|
  {
    if cs == [] then []
    else
      (if !mask[0] then [cs[0]] else if cs[0].ses.destroy then [] else [Emptied(cs[0])])
      + Survivors(cs[1..], mask[1..])
  }

  /** The queues of the visited clients, whole and in order. */
  function Sendings(cs: seq<ClientState>, mask: seq<bool>): seq<Sent>
    requires |mask| == |cs|
  {
    if cs == [] then [] else (if mask[0] then SentBy(cs[0]) else []) + Sendings(cs[1..], mask[1..])
  }

  /** The socket entries given up, one per removed client, in the order of the removals. */
  function Released(cs: seq<ClientState>, mask: seq<bool>, sockets: seq<Socket>): seq<Socket>
    requires |mask| == |cs|
  {
    if cs == [] then sockets
    else Released(cs[1..], mask[1..], if mask[0] && cs[0].ses.destroy then WithoutSocket(sockets, cs[0].s) else sockets)
  }

  lemma {:induction false} FlushIsExact(cs: seq<ClientState>, sockets: seq<Socket>)
    ensures var mask := Visited(cs);
      Flush(cs, sockets) == Pass(Survivors(cs, mask), Released(cs, mask, sockets), Sendings(cs, mask))
    decreases |cs|
  {
    hide WithoutSocket, SentBy, Emptied;
    var mask := Visited(cs);
    if cs == [] {
    } else if !cs[0].ses.destroy {
      assert mask[1..] == Visited(cs[1..]);
      FlushIsExact(cs[1..], sockets);
    } else if |cs| == 1 {
      assert cs[1..] == [] && mask[1..] == [];
    } else {
      var left := WithoutSocket(sockets, cs[0].s);
      FlushIsExact(cs[2..], left);
      assert mask[1..][1..] == Visited(cs[2..]) && cs[1..][1..] == cs[2..];
      assert !mask[1..][0];
      UnvisitedFirst(cs[1..], mask[1..], left);
    }
  }

  lemma UnvisitedFirst(cs: seq<ClientState>, mask: seq<bool>, sockets: seq<Socket>)
    requires |mask| == |cs| >= 1 && !mask[0]
    ensures Survivors(cs, mask) == [cs[0]] + Survivors(cs[1..], mask[1..])
    ensures Sendings(cs, mask) == Sendings(cs[1..], mask[1..])
    ensures Released(cs, mask, sockets) == Released(cs[1..], mask[1..], sockets)
  {
  }

  function Marked(cs: seq<ClientState>): nat {
    if cs == [] then 0 else (if cs[0].ses.destroy then 1 else 0) + Marked(cs[1..])
  }

  /** Every pass removes at least half of the clients marked destroy, and removes no other. */
  lemma {:induction false} FlushRemovesHalf(cs: seq<ClientState>, sockets: seq<Socket>)
    ensures var kept := Flush(cs, sockets).kept; var removed := |cs| - |kept|;
      && 2 * removed >= Marked(cs)
      && Marked(kept) == Marked(cs) - removed
    decreases |cs|
  {
    hide WithoutSocket, SentBy, Emptied;
    if cs == [] {
    } else if !cs[0].ses.destroy {
      FlushRemovesHalf(cs[1..], sockets);
      var r := Flush(cs[1..], sockets);
      assert !Emptied(cs[0]).ses.destroy by { EmptiedKeepsSession(cs[0]); }
      assert ([Emptied(cs[0])] + r.kept)[1..] == r.kept;
    } else if |cs| == 1 {
      assert cs[1..] == [];
    } else {
      var left := WithoutSocket(sockets, cs[0].s);
      var r := Flush(cs[2..], left);
      FlushRemovesHalf(cs[2..], left);
      assert cs[1..][1..] == cs[2..];
      assert ([cs[1]] + r.kept)[1..] == r.kept;
    }
  }

  lemma EmptiedKeepsSession(c: ClientState)
    ensures Emptied(c).ses == c.ses
  {
  }

  /** Passes in a row, with nothing else going on. */
  function FlushTimes(cs: seq<ClientState>, sockets: seq<Socket>, n: nat): Pass {
    if n == 0 then Pass(cs, sockets, [])
    else
      var before := FlushTimes(cs, sockets, n - 1);
      var r := Flush(before.kept, before.sockets);
      r.(sent := before.sent + r.sent)
  }

  function Pow2(n: nat): nat {
    if n == 0 then 1 else 2 * Pow2(n - 1)
  }

  lemma HalvedAgain(p: nat, m: nat, m': nat, total: nat)
    requires p * m <= total && 2 * m' <= m
    ensures (2 * p) * m' <= total
  {
    assert p * (m - 2 * m') >= 0;
  }

  lemma {:induction false} PassesHalve(cs: seq<ClientState>, sockets: seq<Socket>, n: nat)
    ensures Pow2(n) * Marked(FlushTimes(cs, sockets, n).kept) <= Marked(cs)
  {
    hide Flush, Marked;
    if n > 0 {
      var before := FlushTimes(cs, sockets, n - 1);
      PassesHalve(cs, sockets, n - 1);
      FlushRemovesHalf(before.kept, before.sockets);
      HalvedAgain(Pow2(n - 1), Marked(before.kept), Marked(FlushTimes(cs, sockets, n).kept), Marked(cs));
    }
  }

  lemma ProductAtLeast(p: nat, m: nat)
    requires m >= 1
    ensures p * m >= p
  {
    assert p * (m - 1) >= 0;
  }

  lemma SmallProduct(p: nat, m: nat, total: nat)
    requires p * m <= total < p
    ensures m == 0
  {
    if m >= 1 {
      ProductAtLeast(p, m);
    }
  }

  /** n passes leave at most a 2^n-th of the marked clients, so finitely many passes drain them all. */
  lemma PassesDrainTheMarked(cs: seq<ClientState>, sockets: seq<Socket>, n: nat)
    ensures Pow2(n) * Marked(FlushTimes(cs, sockets, n).kept) <= Marked(cs)
    ensures Pow2(n) > Marked(cs) ==> Marked(FlushTimes(cs, sockets, n).kept) == 0
  {
    PassesHalve(cs, sockets, n);
    if Pow2(n) > Marked(cs) {
      SmallProduct(Pow2(n), Marked(FlushTimes(cs, sockets, n).kept), Marked(cs));
    }
  }
}
