/** Closures (async/tame.h:217-269): the frame of one suspended tame
    function. Each closure is weak-refcounted, numbered from a process-wide
    64-bit serial counter, and records where to re-enter (`jumpto`), how
    many call-exactly-once continuations it has handed out, and the join
    groups associated with it. */
module Closures {
  import opened Runtime
  import opened Weak

  const U32: nat := 0x1_0000_0000
  const U64: nat := 0x1_0000_0000_0000_0000

  /** A C++ `int` converted to `u_int`: reduction modulo 2^32. */
  function ToUInt(i: int): (r: nat)
    ensures r < U32
    ensures (r - i) % U32 == 0
    ensures 0 <= i < U32 ==> r == i
  {
    i % U32
  }

  /** `++closure_serial_number` on a `u_int64_t`: wraps to 0 after 2^64-1. */
  function NextSerial(n: nat): (r: nat)
    requires n < U64
    ensures r < U64
    ensures n + 1 < U64 ==> r == n + 1
    ensures n + 1 == U64 ==> r == 0
  {
    (n + 1) % U64
  }

  /** The ids handed to `k` closures created one after another from a
      counter standing at `start`. */
  function Serials(start: nat, k: nat): seq<nat>
    requires start < U64
    decreases k
  {
    if k == 0 then [] else [NextSerial(start)] + Serials(NextSerial(start), k - 1)
  }

  /** Until the counter wraps, closure ids are strictly increasing in
      creation order, hence never repeat, and all exceed the start value. */
  lemma {:induction false} SerialsIncrease(start: nat, k: nat)
    requires start + k < U64
    ensures |Serials(start, k)| == k
    ensures forall i :: 0 <= i < k ==> Serials(start, k)[i] == start + i + 1
    ensures forall i, j :: 0 <= i < j < k ==> Serials(start, k)[i] < Serials(start, k)[j]
    decreases k
  {
    if k > 0 {
      SerialsIncrease(start + 1, k - 1);
      assert Serials(start, k) == [start + 1] + Serials(start + 1, k - 1);
    }
  }

  /** `closure_serial_number`, passed explicitly instead of a global. */
  class SerialCounter {
    var last: nat

    ghost predicate Valid()
      reads this
    {
      last < U64
    }

    constructor ()
      ensures Valid() && last == 0
    {
      last := 0;
    }

    method Next() returns (id: nat)
      requires Valid()
      modifies this
      ensures Valid()
      ensures id == NextSerial(old(last)) && last == id
    {
      last := NextSerial(last);
      id := last;
    }
  }

  class Closure {
    const base: WeakCounted                  // the weak_refcounted_t<closure_t> part
    const id: nat                            // `_id`
    var jumpto: nat                          // `_jumpto`, a u_int
    var cceocCount: int                      // `_cceoc_count`
    var hasCceoc: bool                       // `_has_cceoc`
    var joinGroups: seq<(MortalRef, object?)>  // `_join_groups`, with the wrapper token

    /** `closure_t (bool c)`: takes the next serial number; the weak count
        starts at one with both flags down. */
    constructor (c: bool, serial: SerialCounter)
      requires serial.Valid()
      modifies serial
      ensures serial.Valid()
      ensures id == NextSerial(old(serial.last)) && serial.last == id
      ensures fresh(base) && fresh(base.mortal) && fresh(base.mortal.destroyed) && fresh(base.mortal.dead)
      ensures base.State() == Counter(1, None)
      ensures !base.mortal.destroyed.b && !base.mortal.dead.b && base.mortal.destroyed != base.mortal.dead
      ensures jumpto == 0 && cceocCount == 0 && hasCceoc == c && joinGroups == []
    {
      var n := serial.Next();
      base := new WeakCounted();
      id := n;
      jumpto := 0;
      cceocCount := 0;
      hasCceoc := c;
      joinGroups := [];
    }

    /** `set_jumpto (int i)` stores into a `u_int`. */
    method SetJumpto(i: int)
      modifies this
      ensures jumpto == ToUInt(i)
      ensures cceocCount == old(cceocCount) && hasCceoc == old(hasCceoc) && joinGroups == old(joinGroups)
    {
      jumpto := ToUInt(i);
    }

    function Jumpto(): (r: nat)
      reads this
      ensures r == jumpto
    {
      jumpto
    }

    method IncCceocCount()
      modifies this
      ensures cceocCount == old(cceocCount) + 1
      ensures jumpto == old(jumpto) && hasCceoc == old(hasCceoc) && joinGroups == old(joinGroups)
    {
      cceocCount := cceocCount + 1;
    }

    method SetHasCceoc(f: bool)
      modifies this
      ensures hasCceoc == f
      ensures jumpto == old(jumpto) && cceocCount == old(cceocCount) && joinGroups == old(joinGroups)
    {
      hasCceoc := f;
    }

    /** The call `associate_join_group (mref, jgwp)` made by a join group;
        recorded in `_join_groups`. */
    method AssociateJoinGroup(mref: MortalRef, jgwp: object?)
      modifies this
      ensures joinGroups == old(joinGroups) + [(mref, jgwp)]
      ensures jumpto == old(jumpto) && cceocCount == old(cceocCount) && hasCceoc == old(hasCceoc)
    {
      joinGroups := joinGroups + [(mref, jgwp)];
    }
  }
}
