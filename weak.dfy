/** Weak reference counting (async/tame.h:93-215).

    `mortal_t` gives an object two shared boolean cells, `destroyed` (set by
    its destructor) and `dead` (set by an overridable `mark_dead`).
    `weak_refcounted_t` adds a manually managed weak count, starting at 1,
    and a one-shot finalize callback that is scheduled, not called, when the
    count drops to zero. `weak_ref_t` observes such an object through a copy
    of its `destroyed` cell and never dereferences it once that cell is set.

    C++ inheritance becomes composition: an owner holds a `WeakCounted`,
    which holds its `Mortal`. */
module Weak {
  import opened Runtime

  /** `mortal_t`: the two shared flags of an object observed from afar. */
  class Mortal {
    const destroyed: Flag
    const dead: Flag

    constructor ()
      ensures fresh(destroyed) && fresh(dead)
      ensures !destroyed.b && !dead.b && destroyed != dead
    {
      destroyed := new Flag(false);
      dead := new Flag(false);
    }

    /** `~mortal_t`: the destructor raises the shared `destroyed` cell. */
    method Destroy()
      modifies destroyed
      ensures destroyed.b
    {
      destroyed.b := true;
    }

    /** `make_mortal_ref`: a handle sharing both cells. */
    function MakeMortalRef(): (r: MortalRef)
      ensures r.mortal == this
      ensures r.destroyed == destroyed && r.dead == dead
    {
      MortalRef(this, destroyed, dead)
    }
  }

  /** `mortal_ref_t`: the object plus copies of both flag handles. */
  datatype MortalRef = MortalRef(mortal: Mortal, destroyed: Flag, dead: Flag)

  // ---------------------------------------------------------------------
  // The weak count as a value

  /** `_refcnt` and `_weak_finalize_cb` of a `weak_refcounted_t`. */
  datatype Counter = Counter(refcnt: int, finalizeCb: Option<Callback>)

  /** A counter after a decrement, with the callback it handed to the
      scheduler, if any. */
  datatype Decremented = Decremented(counter: Counter, fired: Option<Callback>)

  /** `weak_decref` with its assertion holding: the count goes down by one;
      at zero the callback is taken out and handed over. */
  function Decref(c: Counter): (r: Decremented)
    requires c.refcnt > 0
    ensures r.counter.refcnt == c.refcnt - 1 >= 0
    ensures r.fired.Some? <==> r.counter.refcnt == 0 && c.finalizeCb.Some?
    ensures r.fired.Some? ==> r.fired == c.finalizeCb
    ensures r.counter.refcnt == 0 ==> r.counter.finalizeCb == None
    ensures r.counter.refcnt != 0 ==> r.counter.finalizeCb == c.finalizeCb
  {
    var n := c.refcnt - 1;
    if n == 0 then Decremented(Counter(0, None), c.finalizeCb)
    else Decremented(Counter(n, c.finalizeCb), None)
  }

  /** The three things a client can do to a weak count. */
  datatype WeakOp = Inc | Dec | SetCb(cb: Option<Callback>)

  /** The counter after a run, and every callback scheduled on the way. */
  datatype WeakRun = WeakRun(counter: Counter, fired: seq<Callback>)


  /** Runs `ops` from `c`; `None` when some `weak_decref` finds the count
      already at zero, i.e. its assertion stops the program. */
  function RunWeak(c: Counter, ops: seq<WeakOp>): Option<WeakRun>
    decreases |ops|
  {
    if ops == [] then Some(WeakRun(c, []))
    else
      match ops[0]
      case Inc => RunWeak(Counter(c.refcnt + 1, c.finalizeCb), ops[1..])
      case SetCb(cb) => RunWeak(Counter(c.refcnt, cb), ops[1..])
      case Dec =>
        if c.refcnt <= 0 then None
        else
          var d := Decref(c);
          match RunWeak(d.counter, ops[1..])
          case None => None
          case Some(w) => Some(WeakRun(w.counter, Listed(d.fired) + w.fired))
  }

  function Armed(c: Counter): nat
  {
    if c.finalizeCb.Some? then 1 else 0
  }

  /** Number of `set_weak_finalize_cb` calls that install a callback. */
  function Arms(ops: seq<WeakOp>): nat
  {
    if ops == [] then 0
    else (if ops[0].SetCb? && ops[0].cb.Some? then 1 else 0) + Arms(ops[1..])
  }

  /** Net effect of a run on the count. */
  function Balance(ops: seq<WeakOp>): int
  {
    if ops == [] then 0
    else (match ops[0] case Inc => 1 case Dec => -1 case SetCb(_) => 0) + Balance(ops[1..])
  }

  /** Each installed finalize callback is handed to the scheduler at most
      once: the callbacks fired plus the one still armed never exceed the
      one armed at the start plus the ones installed since. */
  lemma {:induction false} FinalizeAtMostOncePerArming(c: Counter, ops: seq<WeakOp>)
    requires RunWeak(c, ops).Some?
    ensures |RunWeak(c, ops).value.fired| + Armed(RunWeak(c, ops).value.counter)
            <= Armed(c) + Arms(ops)
    decreases |ops|
  {
    if ops != [] {
      match ops[0]
      case Inc =>
        FinalizeAtMostOncePerArming(Counter(c.refcnt + 1, c.finalizeCb), ops[1..]);
      case SetCb(cb) =>
        FinalizeAtMostOncePerArming(Counter(c.refcnt, cb), ops[1..]);
      case Dec =>
        FinalizeAtMostOncePerArming(Decref(c).counter, ops[1..]);
    }
  }

  /** Without a new `set_weak_finalize_cb`, finalization fires at most once,
      however often the count returns to zero. */
  lemma FinalizeFiresAtMostOnce(c: Counter, ops: seq<WeakOp>)
    requires RunWeak(c, ops).Some?
    requires Arms(ops) == 0
    ensures |RunWeak(c, ops).value.fired| <= 1
    ensures |RunWeak(c, ops).value.fired| == 1 ==>
              c.finalizeCb.Some? && RunWeak(c, ops).value.fired == [c.finalizeCb.value]
  {
    FinalizeAtMostOncePerArming(c, ops);
    FiredOnlyArmedCallbacks(c, ops);
  }

  /** With no callback installed on the way, the only callback a run can
      fire is the one armed at the start. */
  lemma {:induction false} FiredOnlyArmedCallbacks(c: Counter, ops: seq<WeakOp>)
    requires RunWeak(c, ops).Some?
    requires Arms(ops) == 0
    ensures forall k :: 0 <= k < |RunWeak(c, ops).value.fired| ==>
              c.finalizeCb == Some(RunWeak(c, ops).value.fired[k])
    ensures RunWeak(c, ops).value.counter.finalizeCb.Some? ==>
              RunWeak(c, ops).value.counter.finalizeCb == c.finalizeCb
    decreases |ops|
  {
    if ops != [] {
      match ops[0]
      case Inc =>
        FiredOnlyArmedCallbacks(Counter(c.refcnt + 1, c.finalizeCb), ops[1..]);
      case SetCb(cb) =>
        FiredOnlyArmedCallbacks(Counter(c.refcnt, cb), ops[1..]);
      case Dec =>
        FiredOnlyArmedCallbacks(Decref(c).counter, ops[1..]);
    }
  }

  /** The weak count never goes negative: a run from a non-negative count
      completes exactly when no prefix of it decrements below zero, and then
      ends at the start count plus the net balance. */
  lemma {:induction false} RunWeakCompletesIffNeverNegative(c: Counter, ops: seq<WeakOp>)
    requires c.refcnt >= 0
    ensures RunWeak(c, ops).Some? <==>
              forall k :: 0 <= k <= |ops| ==> c.refcnt + Balance(ops[..k]) >= 0
    ensures RunWeak(c, ops).Some? ==>
              RunWeak(c, ops).value.counter.refcnt == c.refcnt + Balance(ops) >= 0
    decreases |ops|
  {
    if ops == [] {
      assert ops[..0] == [];
    } else {
      var delta := match ops[0] case Inc => 1 case Dec => -1 case SetCb(_) => 0;
      var next := match ops[0]
        case Inc => Counter(c.refcnt + 1, c.finalizeCb)
        case SetCb(cb) => Counter(c.refcnt, cb)
        case Dec => if c.refcnt > 0 then Decref(c).counter else c;
      forall k | 0 <= k < |ops|
        ensures Balance(ops[..k + 1]) == delta + Balance(ops[1..][..k])
      {
        assert ops[..k + 1][0] == ops[0];
        assert ops[..k + 1][1..] == ops[1..][..k];
      }
      assert ops[..0] == [];
      assert ops[..|ops|] == ops;
      if ops[0].Dec? && c.refcnt <= 0 {
        assert c.refcnt + Balance(ops[..1]) < 0;
      } else {
        assert next.refcnt == c.refcnt + delta;
        RunWeakCompletesIffNeverNegative(next, ops[1..]);
        var ok := forall k :: 0 <= k <= |ops| ==> c.refcnt + Balance(ops[..k]) >= 0;
        var okNext := forall k :: 0 <= k <= |ops[1..]| ==> next.refcnt + Balance(ops[1..][..k]) >= 0;
        if ok {
          forall k | 0 <= k <= |ops[1..]|
            ensures next.refcnt + Balance(ops[1..][..k]) >= 0
          {
            assert c.refcnt + Balance(ops[..k + 1]) >= 0;
          }
        }
        if okNext {
          forall k | 0 <= k <= |ops|
            ensures c.refcnt + Balance(ops[..k]) >= 0
          {
            if k > 0 {
              assert next.refcnt + Balance(ops[1..][..k - 1]) >= 0;
            }
          }
        }
      }
    }
  }

  // ---------------------------------------------------------------------
  // The weak-refcounted object

  /** The `weak_refcounted_t` part of an owner: its mortality flags, its
      weak count and its finalize callback. */
  class WeakCounted {
    const mortal: Mortal
    var refcnt: int
    var finalizeCb: Option<Callback>

    /** A new owner starts with a weak count of one and no callback. */
    constructor ()
      ensures fresh(mortal) && fresh(mortal.destroyed) && fresh(mortal.dead)
      ensures !mortal.destroyed.b && !mortal.dead.b && mortal.destroyed != mortal.dead
      ensures State() == Counter(1, None)
    {
      mortal := new Mortal();
      refcnt := 1;
      finalizeCb := None;
    }

    function State(): Counter
      reads this
    {
      Counter(refcnt, finalizeCb)
    }

    method WeakIncref()
      modifies this
      ensures State() == Counter(old(refcnt) + 1, old(finalizeCb))
    {
      refcnt := refcnt + 1;
    }

    /** The assertion in `weak_decref` is the precondition; the callback
        is cleared before it is scheduled, so it can fire only once. */
    method WeakDecref(env: Env)
      requires refcnt > 0
      modifies this, env
      ensures State() == Decref(old(State())).counter
      ensures env.scheduled == old(env.scheduled) + Scheduled(Decref(old(State())).fired)
      ensures env.errors == old(env.errors) && env.invoked == old(env.invoked)
    {
      refcnt := refcnt - 1;
      if refcnt == 0 {
        var c := finalizeCb;
        finalizeCb := None;
        if c.Some? {
          env.scheduled := env.scheduled + [Call(c.value)];
        }
      }
    }

    method SetWeakFinalizeCb(c: Option<Callback>)
      modifies this
      ensures State() == Counter(old(refcnt), c)
    {
      finalizeCb := c;
    }
  }

  /** The count `weak_ref_t::weak_decref` leaves on its target: one less
      while the target lives, disarmed on reaching zero; untouched once the
      target is destroyed. */
  function CountAfter(c: Counter, live: bool): (r: Counter)
    ensures live && c.refcnt > 0 ==> r == Decref(c).counter
    ensures !live ==> r == c
  {
    if !live then c
    else if c.refcnt == 1 then Counter(0, None)
    else Counter(c.refcnt - 1, c.finalizeCb)
  }

  /** The callback a weak decref hands to the scheduler: only a live
      target whose count drops from one to zero fires, and only if armed. */
  function FiredBy(c: Counter, live: bool): (f: Option<Callback>)
    ensures live && c.refcnt > 0 ==> f == Decref(c).fired
    ensures f.Some? ==> live && c.refcnt == 1
  {
    if live && c.refcnt == 1 then c.finalizeCb else None
  }

  /** `weak_ref_t<T>`: the owner's pointer plus its weak-count part, through
      which the shared `destroyed` cell is read. */
  datatype WeakRef<T> = WeakRef(target: T, counted: WeakCounted) {

    /** The pointer is handed out only while `destroyed` is unset. */
    function Pointer(): (p: Option<T>)
      reads counted.mortal.destroyed
      ensures p.None? <==> counted.mortal.destroyed.b
      ensures p.Some? ==> p.value == target
    {
      if counted.mortal.destroyed.b then None else Some(target)
    }

    /** A no-op once the target is destroyed. */
    method WeakIncref()
      modifies counted
      ensures counted.State() ==
                if Pointer().Some? then Counter(old(counted.refcnt) + 1, old(counted.finalizeCb))
                else old(counted.State())
    {
      if Pointer().Some? {
        counted.WeakIncref();
      }
    }

    /** A no-op once the target is destroyed; otherwise `weak_decref` on it. */
    method WeakDecref(env: Env)
      requires !counted.mortal.destroyed.b ==> counted.refcnt > 0
      modifies counted, env
      ensures counted.State() == CountAfter(old(counted.State()), !counted.mortal.destroyed.b)
      ensures env.scheduled == old(env.scheduled) + Scheduled(FiredBy(old(counted.State()), !counted.mortal.destroyed.b))
      ensures env.errors == old(env.errors) && env.invoked == old(env.invoked)
    {
      if Pointer().Some? {
        counted.WeakDecref(env);
      }
    }
  }
}
