/** Sequences of equal-sized elements laid end to end in one byte sequence. */
module FlatSequences {
  import opened Bytes

  ghost function Flat(es: seq<seq<Byte>>): seq<Byte> {
    if es == [] then [] else es[0] + Flat(es[1..])
  }

  ghost predicate Uniform(es: seq<seq<Byte>>, m: nat) {
    forall i :: 0 <= i < |es| ==> |es[i]| == m
  }

  /** The byte offset of slot i. */
  function Off(i: nat, m: nat): nat {
    i * m
  }

  lemma OffAdd(a: nat, b: nat, m: nat)
    ensures Off(a + b, m) == Off(a, m) + Off(b, m)
    ensures Off(0, m) == 0 && Off(1, m) == m
  {
  }

  /** The extent of slot i < n. */
  lemma SlotExtent(i: nat, n: nat, m: nat)
    requires i < n
    ensures Off(i, m) + m == Off(i + 1, m) <= Off(n, m)
  {
    hide Off;
    OffAdd(i, 1, m);
    OffAdd(i + 1, n - (i + 1), m);
  }

  lemma {:induction false} FlatLength(es: seq<seq<Byte>>, m: nat)
    requires Uniform(es, m)
    ensures |Flat(es)| == Off(|es|, m)
  {
    hide Off;
    OffAdd(0, 0, m);
    if es != [] {
      FlatLength(es[1..], m);
      OffAdd(1, |es| - 1, m);
    }
  }

  lemma {:induction false} FlatConcat(a: seq<seq<Byte>>, b: seq<seq<Byte>>)
    ensures Flat(a + b) == Flat(a) + Flat(b)
  {
    if a == [] {
      assert a + b == b;
    } else {
      assert (a + b)[1..] == a[1..] + b;
      FlatConcat(a[1..], b);
    }
  }

  lemma FlatOne(e: seq<Byte>)
    ensures Flat([e]) == e
  {
    assert [e][1..] == [];
    assert Flat([e][1..]) == [];
  }

  /** The bytes before, inside and behind slot i. */
  lemma FlatAround(es: seq<seq<Byte>>, i: nat, m: nat)
    requires Uniform(es, m) && i < |es|
    ensures Flat(es) == Flat(es[..i]) + es[i] + Flat(es[i + 1..])
    ensures |Flat(es[..i])| == Off(i, m) && |Flat(es)| == Off(|es|, m)
    ensures Off(i, m) + m == Off(i + 1, m) <= Off(|es|, m)
    ensures Flat(es)[Off(i, m)..Off(i + 1, m)] == es[i]
  {
    hide Off;
    SlotExtent(i, |es|, m);
    assert es == es[..i] + ([es[i]] + es[i + 1..]);
    FlatConcat(es[..i], [es[i]] + es[i + 1..]);
    FlatConcat([es[i]], es[i + 1..]);
    FlatOne(es[i]);
    FlatLength(es[..i], m);
    FlatLength(es, m);
    var head, tail := Flat(es[..i]), Flat(es[i + 1..]);
    assert (head + es[i] + tail)[|head|..|head| + m] == es[i];
  }

  /** Overwriting slot i overwrites element i and nothing else. */
  lemma FlatUpdate(es: seq<seq<Byte>>, i: nat, e: seq<Byte>, m: nat)
    requires Uniform(es, m) && i < |es| && |e| == m
    ensures Uniform(es[i := e], m)
    ensures Off(i, m) + m == Off(i + 1, m) <= |Flat(es)|
    ensures Flat(es[i := e]) == Flat(es)[..Off(i, m)] + e + Flat(es)[Off(i + 1, m)..]
  {
    hide Off;
    var es' := es[i := e];
    FlatAround(es, i, m);
    FlatAround(es', i, m);
    assert es'[..i] == es[..i] && es'[i + 1..] == es[i + 1..];
    var head, tail := Flat(es[..i]), Flat(es[i + 1..]);
    assert (head + es[i] + tail)[..|head|] == head;
    assert (head + es[i] + tail)[|head| + m..] == tail;
  }

  lemma FlatSplit(es: seq<seq<Byte>>, i: nat, m: nat)
    requires Uniform(es, m) && i <= |es|
    ensures Off(i, m) <= |Flat(es)| == Off(|es|, m)
    ensures Flat(es[..i]) == Flat(es)[..Off(i, m)] && Flat(es[i..]) == Flat(es)[Off(i, m)..]
  {
    hide Off;
    assert es == es[..i] + es[i..];
    FlatConcat(es[..i], es[i..]);
    FlatLength(es[..i], m);
    FlatLength(es, m);
  }

  /** The layout loses nothing: equal bytes are equal elements. */
  lemma {:induction false} FlatIsInjective(a: seq<seq<Byte>>, b: seq<seq<Byte>>, m: nat)
    requires m > 0 && Uniform(a, m) && Uniform(b, m) && Flat(a) == Flat(b)
    ensures a == b
  {
    FlatLength(a, m);
    FlatLength(b, m);
    if a != [] && b != [] {
      assert a[0] == Flat(a)[..m] == Flat(b)[..m] == b[0];
      assert Flat(a[1..]) == Flat(a)[m..] == Flat(b)[m..] == Flat(b[1..]);
      FlatIsInjective(a[1..], b[1..], m);
      assert a == [a[0]] + a[1..] && b == [b[0]] + b[1..];
    }
  }
}
