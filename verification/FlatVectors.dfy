/** The growable vector of src/vec.c and include/vec.h: one byte buffer, an element size, a length and a capacity. */
module FlatVectors {
  import opened Bytes
  import opened FlatSequences
  import opened Growth

  /** `after` is `before` with n bytes copied from `src` to `dst`. */
  ghost predicate Moved(before: seq<Byte>, after: seq<Byte>, dst: nat, src: nat, n: nat)
    requires dst + n <= |before| && src + n <= |before|
  {
    && |after| == |before|
    && after[..dst] == before[..dst]
    && after[dst..dst + n] == before[src..src + n]
    && after[dst + n..] == before[dst + n..]
  }

  lemma MovedBytes(before: seq<Byte>, after: seq<Byte>, dst: nat, src: nat, n: nat)
    requires dst + n <= |before| && src + n <= |before| && |after| == |before|
    requires forall k :: 0 <= k < |before| ==> after[k] == before[if dst <= k < dst + n then src + (k - dst) else k]
    ensures Moved(before, after, dst, src, n)
  {
  }

  lemma LiveSlices(all: seq<Byte>, live: seq<Byte>, n: nat, lo: nat, hi: nat)
    requires lo <= hi <= n <= |all| && live == all[..n]
    ensures live[..lo] == all[..lo] && live[hi..] == all[hi..n]
  {
  }

  /** Moving [hi, n) down to lo closes the hole [lo, hi). */
  lemma TailMoved(before: seq<Byte>, after: seq<Byte>, lo: nat, hi: nat, n: nat)
    requires lo <= hi <= n <= |before| && Moved(before, after, lo, hi, n - hi)
    ensures after[..lo + (n - hi)] == before[..lo] + before[hi..n]
  {
    assert after[..lo + (n - hi)] == after[..lo] + after[lo..lo + (n - hi)];
  }

  /** Moving [lo, n) up to gap keeps what is before lo and finds the rest behind the gap. */
  lemma GapOpened(before: seq<Byte>, after: seq<Byte>, lo: nat, gap: nat, n: nat)
    requires lo <= gap && lo <= n && gap + (n - lo) <= |before| && Moved(before, after, gap, lo, n - lo)
    ensures |after| == |before| && after[..lo] == before[..lo] && after[gap..gap + (n - lo)] == before[lo..n]
  {
    assert after[..lo] == after[..gap][..lo] == before[..gap][..lo];
  }

  /** Copying a slot below n to n changes nothing below n. */
  lemma SlotSaved(before: seq<Byte>, after: seq<Byte>, lo: nat, n: nat, m: nat)
    requires lo + m <= n && n + m <= |before| && Moved(before, after, n, lo, m)
    ensures |after| == |before| && after[..n] == before[..n] && after[n..n + m] == before[lo..lo + m]
  {
  }

  /** A slot below `n` replaced: the live part changes there, the part from `n` on does not. */
  lemma SlotReplaced(before: seq<Byte>, after: seq<Byte>, lo: nat, hi: nat, n: nat, e: seq<Byte>)
    requires lo <= hi <= n <= |before| == |after|
    requires after[..lo] == before[..lo] && after[lo..hi] == e && after[hi..] == before[hi..]
    ensures after[..n] == before[..n][..lo] + e + before[..n][hi..]
    ensures after[n..] == before[n..]
  {
    assert after[n..] == after[hi..][n - hi..];
    assert after[..n] == after[..lo] + after[lo..hi] + after[hi..][..n - hi];
  }

  class FlatVec {
    var data: array<Byte>
    var length: nat
    var capacity: nat
    const memsz: nat

    /** The elements the buffer stands for. */
    ghost var Elements: seq<seq<Byte>>

    ghost predicate Valid()
      reads this, data
    {
      && memsz > 0
      && length <= capacity
      && data.Length == Off(capacity, memsz)
      && |Elements| == length
      && Uniform(Elements, memsz)
      && Off(length, memsz) <= data.Length
      && data[..Off(length, memsz)] == Flat(Elements)
    }

    /** vec_init */
    constructor (memsz: nat)
      requires memsz > 0
      ensures Valid() && Elements == [] && capacity == 0 && this.memsz == memsz && fresh(data)
    {
      this.memsz := memsz;
      data := new Byte[0];
      length, capacity := 0, 0;
      Elements := [];
    }

    /** memmove towards the front, first byte first. */
    method MoveDown(dst: nat, src: nat, n: nat)
      requires dst <= src && src + n <= data.Length
      modifies data
      ensures forall k :: 0 <= k < data.Length ==>
        data[k] == if dst <= k < dst + n then old(data[src + (k - dst)]) else old(data[k])
    {
      var i := 0;
      while i < n
        invariant 0 <= i <= n
        invariant forall k :: 0 <= k < data.Length && !(dst <= k < dst + i) ==> data[k] == old(data[k])
        invariant forall k :: dst <= k < dst + i ==> data[k] == old(data[src + (k - dst)])
      {
        data[dst + i] := data[src + i];
        i := i + 1;
      }
    }

    /** memmove towards the back, last byte first. */
    method MoveUp(dst: nat, src: nat, n: nat)
      requires src <= dst && dst + n <= data.Length
      modifies data
      ensures forall k :: 0 <= k < data.Length ==>
        data[k] == if dst <= k < dst + n then old(data[src + (k - dst)]) else old(data[k])
    {
      var i := n;
      while i > 0
        invariant 0 <= i <= n
        invariant forall k :: 0 <= k < data.Length && !(dst + i <= k < dst + n) ==> data[k] == old(data[k])
        invariant forall k :: dst + i <= k < dst + n ==> data[k] == old(data[src + (k - dst)])
      {
        i := i - 1;
        data[dst + i] := data[src + i];
      }
    }

    /** memmove inside the buffer; the ranges may overlap, so the copy runs away from the overlap. */
    method Memmove(dst: nat, src: nat, n: nat)
      requires dst + n <= data.Length && src + n <= data.Length
      modifies data
      ensures Moved(old(data[..]), data[..], dst, src, n)
    {
      if dst <= src {
        MoveDown(dst, src, n);
      } else {
        MoveUp(dst, src, n);
      }
      MovedBytes(old(data[..]), data[..], dst, src, n);
    }

    /** reallocarray to the current capacity: the live prefix survives. */
    method Realloc()
      requires memsz > 0 && length <= capacity && Off(length, memsz) <= data.Length
      requires |Elements| == length && Uniform(Elements, memsz) && data[..Off(length, memsz)] == Flat(Elements)
      modifies this`data
      ensures Valid() && fresh(data)
    {
      hide Off, Flat;
      OffAdd(length, capacity - length, memsz);
      var ndata := new Byte[Off(capacity, memsz)](_ => 0);
      var optr, n := data, Off(length, memsz);
      var i := 0;
      while i < n
        invariant 0 <= i <= n && data == optr
        invariant forall k :: 0 <= k < i ==> ndata[k] == optr[k]
      {
        ndata[i] := optr[i];
        i := i + 1;
      }
      assert ndata[..n] == optr[..n];
      data := ndata;
    }

    /** vec_expand_ */
    method Expand()
      requires Valid()
      modifies this`data, this`capacity
      ensures Valid() && (data == old(data) || fresh(data))
      ensures capacity == ExpandedCapacity(length, old(capacity)) && length < capacity
    {
      if length + 1 > capacity {
        if capacity == 0 {
          capacity := VEC_MIN_CAPACITY;
        } else {
          capacity := capacity * 2;
        }
        Realloc();
      }
    }

    /** vec_reserve_ */
    method Reserve(n: nat)
      requires Valid()
      modifies this`data, this`capacity
      ensures Valid() && (data == old(data) || fresh(data))
      ensures capacity == ReservedCapacity(old(capacity), n)
    {
      if n > capacity {
        capacity := n;
        Realloc();
      }
    }

    /** vec_compact_ */
    method Compact()
      requires Valid()
      modifies this`data, this`capacity
      ensures Valid() && fresh(data)
      ensures capacity == length
    {
      if length == 0 {
        data := new Byte[0];
        capacity := 0;
        return;
      }
      capacity := length;
      Realloc();
    }

    /** Stores an element into a slot of the buffer: (v)->data[i] = val. */
    method Store(i: nat, e: seq<Byte>)
      requires |e| == memsz && i < capacity && data.Length == Off(capacity, memsz)
      modifies data
      ensures Off(i, memsz) + memsz == Off(i + 1, memsz) <= data.Length
      ensures data[..] == old(data[..Off(i, memsz)]) + e + old(data[Off(i + 1, memsz)..])
    {
      hide Off;
      SlotExtent(i, capacity, memsz);
      var base := Off(i, memsz);
      var k := 0;
      while k < memsz
        invariant k <= memsz
        invariant forall j :: 0 <= j < data.Length && !(base <= j < base + k) ==> data[j] == old(data[j])
        invariant forall j :: base <= j < base + k ==> data[j] == e[j - base]
      {
        data[base + k] := e[k];
        k := k + 1;
      }
    }

    /** vec_push */
    method Push(e: seq<Byte>)
      requires Valid() && |e| == memsz
      modifies this, data
      ensures Valid() && (data == old(data) || fresh(data))
      ensures Elements == old(Elements) + [e]
      ensures capacity == ExpandedCapacity(old(length), old(capacity))
    {
      hide Off, Flat;
      Expand();
      Store(length, e);
      FlatConcat(Elements, [e]);
      FlatOne(e);
      FlatLength(Elements, memsz);
      Elements := Elements + [e];
      length := length + 1;
    }

    /** (v)->data[i] */
    method At(i: nat) returns (e: seq<Byte>)
      requires Valid() && i < length
      ensures e == Elements[i]
    {
      hide Off, Flat;
      FlatAround(Elements, i, memsz);
      e := data[Off(i, memsz)..Off(i + 1, memsz)];
      assert e == data[..Off(length, memsz)][Off(i, memsz)..Off(i + 1, memsz)];
    }

    /** vec_pop */
    method Pop() returns (e: seq<Byte>)
      requires Valid() && length > 0
      modifies this`length, this`Elements
      ensures Valid() && e == old(Elements)[old(length) - 1] && Elements == old(Elements)[..old(length) - 1]
    {
      hide Off, Flat;
      e := At(length - 1);
      Truncate(length - 1);
    }

    /** vec_truncate; vec_clear is Truncate(0). */
    method Truncate(len: nat)
      requires Valid()
      modifies this`length, this`Elements
      ensures Valid() && Elements == old(Elements)[..Min(len, old(length))]
    {
      hide Off, Flat;
      if len < length {
        FlatSplit(Elements, len, memsz);
        assert data[..Off(len, memsz)] == data[..Off(length, memsz)][..Off(len, memsz)];
        length := len;
        Elements := Elements[..len];
      }
    }

    /** vec_splice */
    method Splice(start: nat, count: nat)
      requires Valid() && count > 0 && start + count <= length
      modifies this`length, this`Elements, data
      ensures Valid()
      ensures Elements == old(Elements)[..start] + old(Elements)[start + count..]
    {
      hide Off, Flat, Moved;
      ghost var a, c := Elements[..start], Elements[start + count..];
      FlatSplit(Elements, start, memsz);
      FlatSplit(Elements, start + count, memsz);
      FlatConcat(a, c);
      OffAdd(start, count, memsz);
      OffAdd(start + count, length - start - count, memsz);
      OffAdd(start, length - start - count, memsz);
      ghost var lo, hi, n := Off(start, memsz), Off(start + count, memsz), Off(length, memsz);
      ghost var before := data[..];
      LiveSlices(before, data[..n], n, lo, hi);
      Memmove(Off(start, memsz), Off(start + count, memsz), Off(length - start - count, memsz));
      TailMoved(before, data[..], lo, hi, n);
      length := length - count;
      Elements := a + c;
    }

    /** The memmove of vec_insert_: opens a gap at `idx`. */
    method OpenGap(idx: nat)
      requires Valid() && idx <= length < capacity
      modifies data
      ensures Off(idx, memsz) <= Off(idx + 1, memsz) <= Off(length + 1, memsz) <= data.Length
      ensures data[..Off(idx, memsz)] == Flat(Elements[..idx])
      ensures data[Off(idx + 1, memsz)..Off(length + 1, memsz)] == Flat(Elements[idx..])
    {
      hide Off, Flat, Moved;
      FlatSplit(Elements, idx, memsz);
      SlotExtent(length, capacity, memsz);
      OffAdd(idx, length - idx, memsz);
      OffAdd(idx, 1, memsz);
      OffAdd(idx + 1, length - idx, memsz);
      ghost var lo, gap, n := Off(idx, memsz), Off(idx + 1, memsz), Off(length, memsz);
      ghost var before := data[..];
      LiveSlices(before, data[..n], n, lo, lo);
      Memmove(Off(idx + 1, memsz), Off(idx, memsz), Off(length - idx, memsz));
      GapOpened(before, data[..], lo, gap, n);
    }

    /** vec_insert */
    method Insert(idx: nat, e: seq<Byte>)
      requires Valid() && idx <= length && |e| == memsz
      modifies this, data
      ensures Valid() && (data == old(data) || fresh(data))
      ensures Elements == old(Elements)[..idx] + [e] + old(Elements)[idx..]
      ensures capacity == ExpandedCapacity(old(length), old(capacity))
    {
      hide Off, Flat;
      ghost var a, c := Elements[..idx], Elements[idx..];
      Expand();
      OpenGap(idx);
      Store(idx, e);
      FlatConcat(a + [e], c);
      FlatConcat(a, [e]);
      FlatOne(e);
      length := length + 1;
      Elements := a + [e] + c;
      assert data[..Off(length, memsz)] == Flat(a) + e + Flat(c);
    }

    /** memcpy of the slot `src`, which holds `e`, onto the live slot `dst`. */
    method CopySlot(dst: nat, src: nat, ghost e: seq<Byte>)
      requires Valid() && dst < length && src < capacity && |e| == memsz
      requires Off(src, memsz) + memsz == Off(src + 1, memsz) <= data.Length
      requires data[Off(src, memsz)..Off(src + 1, memsz)] == e
      modifies data, this`Elements
      ensures Valid() && Elements == old(Elements)[dst := e]
      ensures data[Off(length, memsz)..] == old(data[Off(length, memsz)..])
    {
      hide Off, Flat;
      FlatUpdate(Elements, dst, e, memsz);
      ghost var n, lo, hi := Off(length, memsz), Off(dst, memsz), Off(dst + 1, memsz);
      ghost var before := data[..];
      assert before[..n] == data[..n] && before[n..] == data[n..];
      assert before[Off(src, memsz)..Off(src, memsz) + memsz] == e;
      Memmove(Off(dst, memsz), Off(src, memsz), memsz);
      ghost var after := data[..];
      Elements := Elements[dst := e];
      SlotReplaced(before, after, lo, hi, n, e);
      assert data[..n] == after[..n] && data[n..] == after[n..];
    }

    /** A live slot holds its element. */
    lemma SlotHolds(i: nat)
      requires Valid() && i < length
      ensures Off(i, memsz) + memsz == Off(i + 1, memsz) <= Off(length, memsz)
      ensures data[Off(i, memsz)..Off(i + 1, memsz)] == Elements[i]
    {
      hide Off, Flat;
      FlatAround(Elements, i, memsz);
      assert data[Off(i, memsz)..Off(i + 1, memsz)] == data[..Off(length, memsz)][Off(i, memsz)..Off(i + 1, memsz)];
    }

    /** The first memcpy of vec_swap_: element `idx` into the slot behind the last element. */
    method SaveSlot(idx: nat)
      requires Valid() && idx < length < capacity
      modifies data
      ensures Valid()
      ensures Off(length, memsz) + memsz == Off(length + 1, memsz) <= data.Length
      ensures data[Off(length, memsz)..Off(length + 1, memsz)] == Elements[idx]
    {
      hide Off, Flat, Moved;
      SlotExtent(length, capacity, memsz);
      SlotHolds(idx);
      ghost var n, lo := Off(length, memsz), Off(idx, memsz);
      ghost var before := data[..];
      Memmove(Off(length, memsz), Off(idx, memsz), memsz);
      SlotSaved(before, data[..], lo, n, memsz);
    }

    /** vec_swap_: the slot behind the last element is the temporary. */
    method Swap(idx1: nat, idx2: nat)
      requires Valid() && idx1 < length && idx2 < length
      modifies this`data, this`capacity, this`Elements, data
      ensures Valid() && (data == old(data) || fresh(data))
      ensures Elements == old(Elements)[idx1 := old(Elements)[idx2]][idx2 := old(Elements)[idx1]]
      ensures capacity == ExpandedCapacity(length, old(capacity))
    {
      hide Off, Flat;
      Expand();
      SaveSlot(idx1);
      ghost var e1, e2 := Elements[idx1], Elements[idx2];
      SlotHolds(idx2);
      CopySlot(idx1, idx2, e2);
      assert data[Off(length, memsz)..Off(length + 1, memsz)] == data[Off(length, memsz)..][..memsz];
      CopySlot(idx2, length, e1);
    }

    /** vec_reverse */
    method Reverse()
      requires Valid()
      modifies this`data, this`capacity, this`Elements, data
      ensures Valid() && (data == old(data) || fresh(data))
      ensures forall k :: 0 <= k < length ==> Elements[k] == old(Elements)[length - 1 - k]
    {
      hide Off, Flat, MiddleReversed;
      var i := length / 2;
      MiddleEnds(Elements);
      while i != 0
        invariant Valid() && (data == old(data) || fresh(data)) && 0 <= i <= length / 2
        invariant Elements == MiddleReversed(old(Elements), i)
      {
        i := i - 1;
        MiddleGrows(old(Elements), i);
        Swap(i, length - (i + 1));
      }
    }

    /** vec_find: the index of the first equal element, or -1. */
    method Find(val: seq<Byte>) returns (idx: int)
      requires Valid() && |val| == memsz
      ensures idx == FirstIndex(Elements, val)
    {
      hide Off, Flat;
      idx := 0;
      while idx < length
        invariant 0 <= idx <= length
        invariant forall k :: 0 <= k < idx ==> Elements[k] != val
      {
        var e := At(idx);
        if e == val {
          FirstIndexIs(Elements, val, idx);
          return;
        }
        idx := idx + 1;
      }
      FirstIndexFacts(Elements, val);
      idx := -1;
    }

    /** vec_remove: drops the first occurrence only. */
    method Remove(val: seq<Byte>)
      requires Valid() && |val| == memsz
      modifies this`length, this`Elements, data
      ensures Valid() && Elements == WithoutFirst(old(Elements), val)
    {
      hide Off, Flat;
      var idx := Find(val);
      RemovedAtFirstIndex(Elements, val);
      if idx != -1 {
        Splice(idx, 1);
      }
    }

    /** vec_extend; extending a vector with itself would never end. */
    method Extend(v2: FlatVec)
      requires Valid() && v2.Valid() && v2 != this && v2.data != data && v2.memsz == memsz
      modifies this, data
      ensures Valid() && (data == old(data) || fresh(data))
      ensures Elements == old(Elements) + v2.Elements
    {
      hide Off, Flat;
      var i := 0;
      while i < v2.length
        invariant i <= v2.length
        invariant Valid() && (data == old(data) || fresh(data)) && v2.Valid() && v2.data != data
        invariant v2.Elements == old(v2.Elements) && v2.length == old(v2.length)
        invariant Elements == old(Elements) + v2.Elements[..i]
      {
        var e := v2.At(i);
        assert v2.Elements[..i + 1] == v2.Elements[..i] + [e];
        Push(e);
        i := i + 1;
      }
      assert v2.Elements[..i] == v2.Elements;
    }
  }

  // ---------- What reverse, find and remove mean on sequences ----------

  /** The sequence with all but its outer `i` elements on each side reversed. */
  ghost function MiddleReversed(es: seq<seq<Byte>>, i: nat): seq<seq<Byte>> {
    seq(|es|, k requires 0 <= k < |es| => if i <= k < |es| - i then es[|es| - 1 - k] else es[k])
  }

  lemma MiddleEnds(es: seq<seq<Byte>>)
    ensures MiddleReversed(es, |es| / 2) == es
    ensures forall k :: 0 <= k < |es| ==> MiddleReversed(es, 0)[k] == es[|es| - 1 - k]
  {
  }

  lemma MiddleGrows(es: seq<seq<Byte>>, i: nat)
    requires 2 * (i + 1) <= |es|
    ensures var m := MiddleReversed(es, i + 1); var j := |es| - (i + 1);
      |m| == |es| && MiddleReversed(es, i) == m[i := m[j]][j := m[i]]
  {
  }

  /** The least index holding `val`, or -1. */
  ghost function FirstIndex(es: seq<seq<Byte>>, val: seq<Byte>): int {
    if es == [] then -1
    else if es[0] == val then 0
    else
      var rest := FirstIndex(es[1..], val);
      if rest == -1 then -1 else rest + 1
  }

  ghost function WithoutFirst(es: seq<seq<Byte>>, val: seq<Byte>): seq<seq<Byte>> {
    if es == [] then []
    else if es[0] == val then es[1..]
    else [es[0]] + WithoutFirst(es[1..], val)
  }

  lemma {:induction false} FirstIndexFacts(es: seq<seq<Byte>>, val: seq<Byte>)
    ensures -1 <= FirstIndex(es, val) < |es|
    ensures FirstIndex(es, val) == -1 ==> forall k :: 0 <= k < |es| ==> es[k] != val
    ensures FirstIndex(es, val) != -1 ==>
      es[FirstIndex(es, val)] == val && forall k :: 0 <= k < FirstIndex(es, val) ==> es[k] != val
  {
    if es != [] && es[0] != val {
      FirstIndexFacts(es[1..], val);
      assert forall k :: 1 <= k < |es| ==> es[k] == es[1..][k - 1];
    }
  }

  lemma {:induction false} RemovedAtFirstIndex(es: seq<seq<Byte>>, val: seq<Byte>)
    ensures -1 <= FirstIndex(es, val) < |es|
    ensures WithoutFirst(es, val) ==
      if FirstIndex(es, val) == -1 then es else es[..FirstIndex(es, val)] + es[FirstIndex(es, val) + 1..]
  {
    if es != [] && es[0] != val {
      RemovedAtFirstIndex(es[1..], val);
      assert es == [es[0]] + es[1..];
    }
  }

  lemma FirstIndexIs(es: seq<seq<Byte>>, val: seq<Byte>, i: nat)
    requires i < |es| && es[i] == val && forall k :: 0 <= k < i ==> es[k] != val
    ensures FirstIndex(es, val) == i
  {
    FirstIndexFacts(es, val);
  }
}
