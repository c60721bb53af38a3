/** The growth policy of src/vec.c and of QueuePacket, and what it costs over whole runs. */
module Growth {
  import opened Options
  import opened Arithmetic

  const VEC_MIN_CAPACITY: nat := 4

  /** vec_expand_ */
  function ExpandedCapacity(length: nat, capacity: nat): (r: nat)
    ensures capacity <= r && length <= capacity ==> length < r
  {
    if length + 1 > capacity then (if capacity == 0 then VEC_MIN_CAPACITY else capacity * 2) else capacity
  }

  /** vec_reserve_ */
  function ReservedCapacity(capacity: nat, n: nat): nat {
    if n > capacity then n else capacity
  }

  /**
   Capacities are C ints and grow by doubling. The new capacity is an int exactly when the vector had
   room or held fewer than 2^30 slots, and as long as it is, the allocation is neither refused nor short.
   */
  lemma GrowthStaysInRange(length: nat, capacity: nat, memsz: nat)
    requires length <= capacity <= 0x7fff_ffff && memsz <= 0x7fff_ffff
    ensures var c := ExpandedCapacity(length, capacity);
      && (c <= 0x7fff_ffff <==> length < capacity || capacity < 0x4000_0000)
      && (c <= 0x7fff_ffff ==> RequestedSize(c, memsz) == Some(c * memsz))
  {
    var c := ExpandedCapacity(length, capacity);
    if c <= INT_MAX {
      MulBothBounded(c, memsz, INT_MAX + 1);
      GuardIsExact(c, memsz);
    }
  }

  /** A vector seen by the allocator, with the work done so far: `pushes` appends, `moved` elements copied by realloc. */
  datatype Usage = Usage(length: nat, capacity: nat, pushes: nat, moved: nat)

  const Unused := Usage(0, 0, 0, 0)

  datatype Op =
    | Push             // vec_push
    | Shrink(n: nat)  // vec_pop, vec_splice, vec_truncate, vec_clear: shorter, same buffer

  function PushOnce(u: Usage): Usage {
    var capacity := ExpandedCapacity(u.length, u.capacity);
    var moved := if capacity != u.capacity then u.length else 0;
    Usage(u.length + 1, capacity, u.pushes + 1, u.moved + moved)
  }

  /** The vector work of QueuePacket: reserve twice the length when nearly full, then push. */
  function QueueOnce(u: Usage): Usage {
    if u.length + 1 >= u.capacity then
      var capacity := ReservedCapacity(u.capacity, u.length * 2);
      var moved := if capacity != u.capacity then u.length else 0;
      PushOnce(u.(capacity := capacity, moved := u.moved + moved))
    else PushOnce(u)
  }

  function ShrinkBy(u: Usage, n: nat): Usage {
    u.(length := if n < u.length then u.length - n else 0)
  }

  function Run(queueing: bool, ops: seq<Op>): Usage {
    if ops == [] then Unused
    else
      var before := Run(queueing, ops[..|ops| - 1]);
      match ops[|ops| - 1]
      case Push => if queueing then QueueOnce(before) else PushOnce(before)
      case Shrink(n) => ShrinkBy(before, n)
  }

  function Pushes(ops: seq<Op>): nat {
    if ops == [] then 0
    else Pushes(ops[..|ops| - 1]) + (if ops[|ops| - 1].Push? then 1 else 0)
  }

  /** With vec_push alone, the doublings so far moved capacity - 4 elements at most. */
  ghost predicate PushInvariant(u: Usage) {
    && u.length <= u.capacity && u.length <= u.pushes
    && (u.capacity == 0 ==> u.moved == 0)
    && (u.capacity != 0 ==> u.capacity >= 4 && u.moved <= u.capacity - 4 && u.pushes >= 1)
    && (u.capacity > 4 ==> u.capacity < 2 * u.pushes)
  }

  /** With QueuePacket's policy, the capacity stays even, ahead of the length, and pays for the moves. */
  ghost predicate QueueInvariant(u: Usage) {
    && u.length <= u.pushes
    && (u.capacity == 0 ==> u.moved == 0 && u.length == 0)
    && (u.capacity != 0 ==> u.capacity >= 4 && u.length < u.capacity && 2 * u.moved <= 3 * u.capacity - 12 && u.pushes >= 1)
    && (u.capacity > 4 ==> u.capacity <= 2 * u.pushes - 2)
  }

  /** Over any run of n pushes mixed with pops, splices and clears, growth moves fewer than 2n elements. */
  lemma {:induction false} PushingIsAmortised(ops: seq<Op>)
    ensures var u := Run(false, ops);
      PushInvariant(u) && u.pushes == Pushes(ops) && (u.pushes > 0 ==> u.moved < 2 * u.pushes)
  {
    if ops != [] {
      PushingIsAmortised(ops[..|ops| - 1]);
    }
  }

  function Pow2(k: nat): nat {
    if k == 0 then 1 else 2 * Pow2(k - 1)
  }

  /** A vector that was pushed to has a capacity of four slots, doubled some number of times. */
  lemma {:induction false} CapacityIsDoubledFour(ops: seq<Op>)
    ensures var u := Run(false, ops); if u.pushes == 0 then u.capacity == 0 else exists k: nat :: u.capacity == 4 * Pow2(k)
  {
    if ops != [] {
      var before := Run(false, ops[..|ops| - 1]);
      CapacityIsDoubledFour(ops[..|ops| - 1]);
      PushingIsAmortised(ops[..|ops| - 1]);
      if before.pushes > 0 {
        var k: nat :| before.capacity == 4 * Pow2(k);
        assert before.capacity * 2 == 4 * Pow2(k + 1);
      } else {
        assert 4 * Pow2(0) == 4;
      }
    }
  }

  /** And through QueuePacket, at most 3n; the capacity never falls below the length. */
  lemma {:induction false} QueueingIsAmortised(ops: seq<Op>)
    ensures var u := Run(true, ops);
      && QueueInvariant(u) && u.pushes == Pushes(ops)
      && u.moved <= 3 * u.pushes && u.length <= u.capacity
  {
    if ops != [] {
      QueueingIsAmortised(ops[..|ops| - 1]);
    }
  }
}
