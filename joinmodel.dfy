/** The bookkeeping of `join_group_pointer_t` (async/tame.h:300-414) as a
    state machine on values: outstanding calls `n_out`, the FIFO of joined
    values `_pending`, the one-shot waiter `_join_cb`, and the registry of
    closure ids (`_closure_bhash` and the ids in `_closures`). The class in
    JoinGroups is proved to follow these functions step by step; the
    properties of runs of operations are proved here. */
module JoinModel {
  import opened Runtime
  import opened Closures

  datatype JoinState<V> = JoinState(
    nOut: nat,                // calls launched and not yet joined
    pending: seq<V>,          // joined values not yet taken, oldest first
    joinCb: Option<Callback>, // the waiter to call at the next join
    keys: set<nat>,           // the dedup set
    registered: seq<nat>      // ids of the registered closures, in order
  )

  /** A fresh group: nothing out, nothing pending, nobody waiting. */
  function Initial<V>(): (s: JoinState<V>)
    ensures JoinsLeft(s) == 0 && !NeedJoin(s) && Registry(s)
  {
    JoinState(0, [], None, {}, [])
  }

  /** `n_joins_left`: joins still to be done before the group is drained. */
  function JoinsLeft<V>(s: JoinState<V>): nat
  {
    s.nOut + |s.pending|
  }

  /** `need_join`. */
  function NeedJoin<V>(s: JoinState<V>): (r: bool)
    ensures r <==> s.nOut > 0 || s.pending != []
  {
    JoinsLeft(s) > 0
  }

  /** The dedup set holds exactly the registered ids, each registered once. */
  ghost predicate Registry<V>(s: JoinState<V>)
  {
    (s.keys == set i | 0 <= i < |s.registered| :: s.registered[i]) &&
    (forall i, j :: 0 <= i < j < |s.registered| ==> s.registered[i] != s.registered[j])
  }

  // ---------------------------------------------------------------------
  // One step per operation

  /** `associate_closure`: registers the id unless it already is. */
  function AssociateClosure<V>(s: JoinState<V>, id: nat): (r: JoinState<V>)
    ensures r.nOut == s.nOut && r.pending == s.pending && r.joinCb == s.joinCb
    ensures id in r.keys
    ensures id in s.keys ==> r == s
  {
    if id in s.keys then s
    else s.(keys := s.keys + {id}, registered := s.registered + [id])
  }

  /** `add_join`. */
  function AddJoin<V>(s: JoinState<V>): (r: JoinState<V>)
    ensures JoinsLeft(r) == JoinsLeft(s) + 1 && NeedJoin(r)
  {
    s.(nOut := s.nOut + 1)
  }

  /** `remove_join`, whose assertion demands an outstanding call. */
  function RemoveJoin<V>(s: JoinState<V>): (r: JoinState<V>)
    requires s.nOut > 0
    ensures JoinsLeft(r) + 1 == JoinsLeft(s)
  {
    s.(nOut := s.nOut - 1)
  }

  /** `launch_one (c)`: registers `c` when given, then counts one more call. */
  function LaunchOne<V>(s: JoinState<V>, closure: Option<nat>): (r: JoinState<V>)
    ensures r.nOut == s.nOut + 1 && r.pending == s.pending && r.joinCb == s.joinCb
    ensures closure.None? ==> r.keys == s.keys && r.registered == s.registered
  {
    AddJoin(if closure.Some? then AssociateClosure(s, closure.value) else s)
  }

  /** `set_join_cb (c)`: installs (or clears) the waiter, replacing any
      previous one. */
  function SetJoinCb<V>(s: JoinState<V>, cb: Option<Callback>): (r: JoinState<V>)
    ensures r.joinCb == cb
    ensures r.nOut == s.nOut && r.pending == s.pending && r.keys == s.keys && r.registered == s.registered
    ensures JoinsLeft(r) == JoinsLeft(s)
  {
    s.(joinCb := cb)
  }

  datatype Joined<V> = Joined(state: JoinState<V>, fired: Option<Callback>)

  /** `join (v)`: one call comes back with `v`; a registered waiter is
      unregistered and called. */
  function Join<V>(s: JoinState<V>, v: V): (r: Joined<V>)
    requires s.nOut > 0
    ensures r.state.nOut == s.nOut - 1 && r.state.pending == s.pending + [v]
    ensures JoinsLeft(r.state) == JoinsLeft(s)
    ensures r.fired == s.joinCb && r.state.joinCb == None
    ensures r.state.keys == s.keys && r.state.registered == s.registered
  {
    Joined(s.(nOut := s.nOut - 1, pending := s.pending + [v], joinCb := None), s.joinCb)
  }

  datatype Polled<V> = Polled(state: JoinState<V>, value: Option<V>)

  /** `pending (&p)`: takes the oldest joined value, if there is one. */
  function Pending<V>(s: JoinState<V>): (r: Polled<V>)
    ensures s.pending == [] ==> r.value == None && r.state == s
    ensures s.pending != [] ==>
              r.value == Some(s.pending[0]) && r.state.pending == s.pending[1..] &&
              |r.state.pending| == |s.pending| - 1
    ensures r.state.nOut == s.nOut && r.state.joinCb == s.joinCb
    ensures r.state.keys == s.keys && r.state.registered == s.registered
  {
    if s.pending == [] then Polled(s, None)
    else Polled(s.(pending := s.pending[1..]), Some(s.pending[0]))
  }

  // ---------------------------------------------------------------------
  // Runs of operations

  datatype JoinOp<V> =
    | DoLaunch(closure: Option<nat>)
    | DoAdd
    | DoRemove
    | DoJoin(v: V)
    | DoPoll
    | DoSetCb(cb: Option<Callback>)

  /** The final state, the values `pending` handed out and the waiters
      `join` called, in order. */
  datatype Trace<V> = Trace(state: JoinState<V>, polled: seq<V>, fired: seq<Callback>)


  /** One operation: the state after it, the value `pending` handed out
      and the waiter `join` called, if any; `None` when a `remove_join` or
      `join` finds no outstanding call (an assertion failure, or an
      unsigned underflow). */
  function Step<V>(s: JoinState<V>, op: JoinOp<V>): Option<Trace<V>>
  {
    match op
    case DoLaunch(c) => Some(Trace(LaunchOne(s, c), [], []))
    case DoAdd => Some(Trace(AddJoin(s), [], []))
    case DoSetCb(cb) => Some(Trace(SetJoinCb(s, cb), [], []))
    case DoRemove => if s.nOut == 0 then None else Some(Trace(RemoveJoin(s), [], []))
    case DoJoin(v) =>
      if s.nOut == 0 then None
      else Some(Trace(Join(s, v).state, [], Listed(Join(s, v).fired)))
    case DoPoll => Some(Trace(Pending(s).state, Listed(Pending(s).value), []))
  }

  /** Runs `ops` from `s`, collecting what each step hands out. */
  function Exec<V>(s: JoinState<V>, ops: seq<JoinOp<V>>): Option<Trace<V>>
    decreases |ops|
  {
    if ops == [] then Some(Trace(s, [], []))
    else
      match Step(s, ops[0])
      case None => None
      case Some(o) =>
        (match Exec(o.state, ops[1..])
         case None => None
         case Some(t) => Some(Trace(t.state, o.polled + t.polled, o.fired + t.fired)))
  }

  /** The value passed to `join` by one operation, if any. */
  function JoinOf<V>(op: JoinOp<V>): seq<V>
  {
    if op.DoJoin? then [op.v] else []
  }

  /** The values passed to `join`, in call order. */
  function Joins<V>(ops: seq<JoinOp<V>>): seq<V>
  {
    if ops == [] then [] else JoinOf(ops[0]) + Joins(ops[1..])
  }

  function CountOf<V>(op: JoinOp<V>): int
  {
    match op
    case DoLaunch(_) => 1
    case DoAdd => 1
    case DoRemove => -1
    case _ => 0
  }

  /** Net calls counted in by `launch_one` and `add_join` and counted out
      by `remove_join`. */
  function Counted<V>(ops: seq<JoinOp<V>>): int
  {
    if ops == [] then 0 else CountOf(ops[0]) + Counted(ops[1..])
  }

  /** 1 when the operation is a `set_join_cb` that installs a waiter. */
  function ArmOf<V>(op: JoinOp<V>): nat
  {
    if op.DoSetCb? && op.cb.Some? then 1 else 0
  }

  function Arms<V>(ops: seq<JoinOp<V>>): nat
  {
    if ops == [] then 0 else ArmOf(ops[0]) + Arms(ops[1..])
  }

  function Waiting<V>(s: JoinState<V>): nat
  {
    if s.joinCb.Some? then 1 else 0
  }

  /** The ids launched with a closure by one operation. */
  function LaunchedBy<V>(op: JoinOp<V>): set<nat>
  {
    if op.DoLaunch? && op.closure.Some? then {op.closure.value} else {}
  }

  function Launched<V>(ops: seq<JoinOp<V>>): set<nat>
  {
    if ops == [] then {} else LaunchedBy(ops[0]) + Launched(ops[1..])
  }

  /** One operation appends its joined value to the queue, or takes the
      oldest value off it. */
  lemma StepFifo<V>(s: JoinState<V>, op: JoinOp<V>)
    requires Step(s, op).Some?
    ensures Step(s, op).value.polled + Step(s, op).value.state.pending == s.pending + JoinOf(op)
  {
    if op.DoPoll? && s.pending != [] {
      assert s.pending == [s.pending[0]] + s.pending[1..];
    }
  }

  /** What one operation does to the count, the waiter and the registry. */
  lemma StepCounts<V>(s: JoinState<V>, op: JoinOp<V>)
    requires Step(s, op).Some?
    ensures var o := Step(s, op).value;
            JoinsLeft(o.state) + |o.polled| == JoinsLeft(s) + CountOf(op) &&
            |o.fired| + Waiting(o.state) <= Waiting(s) + ArmOf(op)
  {
  }

  lemma StepRegistry<V>(s: JoinState<V>, op: JoinOp<V>)
    requires Step(s, op).Some? && Registry(s)
    ensures Registry(Step(s, op).value.state)
    ensures Step(s, op).value.state.keys == s.keys + LaunchedBy(op)
  {
    if op.DoLaunch? && op.closure.Some? {
      AssociateKeepsRegistry(s, op.closure.value);
    }
  }

  /** A non-empty run is its first step followed by the rest. */
  lemma ExecFirst<V>(s: JoinState<V>, ops: seq<JoinOp<V>>)
    requires ops != [] && Exec(s, ops).Some?
    ensures Step(s, ops[0]).Some?
    ensures Exec(Step(s, ops[0]).value.state, ops[1..]).Some?
    ensures var o := Step(s, ops[0]).value;
            var t := Exec(o.state, ops[1..]).value;
            Exec(s, ops).value == Trace(t.state, o.polled + t.polled, o.fired + t.fired)
  {
  }

  /** FIFO: what `pending` has handed out, followed by what is still
      queued, is exactly what was queued at the start followed by every
      joined value, in join order. */
  lemma {:induction false} ExecIsFifo<V>(s: JoinState<V>, ops: seq<JoinOp<V>>)
    requires Exec(s, ops).Some?
    ensures Exec(s, ops).value.polled + Exec(s, ops).value.state.pending == s.pending + Joins(ops)
    decreases |ops|
  {
    if ops != [] {
      ExecFirst(s, ops);
      var o := Step(s, ops[0]).value;
      StepFifo(s, ops[0]);
      ExecIsFifo(o.state, ops[1..]);
      var t := Exec(o.state, ops[1..]).value;
      AppendAssoc(o.polled, t.polled, t.state.pending);
      AppendAssoc(s.pending, JoinOf(ops[0]), Joins(ops[1..]));
      AppendAssoc(o.polled, o.state.pending, Joins(ops[1..]));
    }
  }

  /** From a fresh group, values come out of `pending` in exactly the order
      they were joined: the output is a prefix of the joined values, and
      all of them once the queue is drained. */
  lemma PendingPreservesJoinOrder<V>(ops: seq<JoinOp<V>>)
    requires Exec(Initial<V>(), ops).Some?
    ensures Exec(Initial<V>(), ops).value.polled <= Joins(ops)
    ensures Exec(Initial<V>(), ops).value.state.pending == [] ==>
              Exec(Initial<V>(), ops).value.polled == Joins(ops)
  {
    ExecIsFifo(Initial<V>(), ops);
    var t := Exec(Initial<V>(), ops).value;
    assert t.polled + t.state.pending == Joins(ops);
    assert Joins(ops)[..|t.polled|] == t.polled;
  }

  /** `n_joins_left` moves only with launches, manual adjustments and
      values taken: `join` moves a call from out to pending and leaves the
      total alone. */
  lemma {:induction false} ExecJoinsLeft<V>(s: JoinState<V>, ops: seq<JoinOp<V>>)
    requires Exec(s, ops).Some?
    ensures JoinsLeft(Exec(s, ops).value.state) + |Exec(s, ops).value.polled|
            == JoinsLeft(s) + Counted(ops)
    decreases |ops|
  {
    if ops != [] {
      var o := Step(s, ops[0]).value;
      StepCounts(s, ops[0]);
      ExecJoinsLeft(o.state, ops[1..]);
    }
  }

  /** The waiter is one-shot: every `set_join_cb` with a callback leads to
      at most one call of it, however many joins follow. */
  lemma {:induction false} JoinCbOneShot<V>(s: JoinState<V>, ops: seq<JoinOp<V>>)
    requires Exec(s, ops).Some?
    ensures |Exec(s, ops).value.fired| + Waiting(Exec(s, ops).value.state) <= Waiting(s) + Arms(ops)
    decreases |ops|
  {
    if ops != [] {
      var o := Step(s, ops[0]).value;
      StepCounts(s, ops[0]);
      JoinCbOneShot(o.state, ops[1..]);
    }
  }

  /** Registering keeps the registry exact: the dedup set and the list name
      the same ids, and no id is listed twice. */
  lemma AssociateKeepsRegistry<V>(s: JoinState<V>, id: nat)
    requires Registry(s)
    ensures Registry(AssociateClosure(s, id))
    ensures id in AssociateClosure(s, id).registered
    ensures id !in s.keys ==> AssociateClosure(s, id).registered == s.registered + [id]
  {
    if id !in s.keys {
      var r := AssociateClosure(s, id);
      assert r.registered[|s.registered|] == id;
      assert forall i :: 0 <= i < |s.registered| ==> r.registered[i] == s.registered[i];
      assert forall i :: 0 <= i < |s.registered| ==> s.registered[i] in s.keys;
    } else {
      var i :| 0 <= i < |s.registered| && s.registered[i] == id;
    }
  }

  /** Over a whole run, the registry stays exact and every closure launched
      into the group ends up registered exactly once. */
  lemma {:induction false} ExecKeepsRegistry<V>(s: JoinState<V>, ops: seq<JoinOp<V>>)
    requires Registry(s)
    requires Exec(s, ops).Some?
    ensures Registry(Exec(s, ops).value.state)
    ensures Exec(s, ops).value.state.keys == s.keys + Launched(ops)
    decreases |ops|
  {
    if ops != [] {
      var o := Step(s, ops[0]).value;
      StepRegistry(s, ops[0]);
      ExecKeepsRegistry(o.state, ops[1..]);
    }
  }

  /** Unfolds a run by its first operation. */
  lemma ExecCons<V>(s: JoinState<V>, op: JoinOp<V>, rest: seq<JoinOp<V>>)
    requires Step(s, op).Some? && Exec(Step(s, op).value.state, rest).Some?
    ensures var o := Step(s, op).value;
            var t := Exec(o.state, rest).value;
            Exec(s, [op] + rest) == Some(Trace(t.state, o.polled + t.polled, o.fired + t.fired))
  {
    assert ([op] + rest)[1..] == rest;
  }

  /** Two launches and two joins: both calls are in, both values wait in
      join order, and `n_joins_left` still counts them. */
  lemma TwoJoinsQueueInOrder<V>(v1: V, v2: V)
    ensures var t := Exec(Initial<V>(), [DoLaunch(None), DoLaunch(None), DoJoin(v1), DoJoin(v2)]);
            t.Some? && t.value.polled == [] &&
            t.value.state.nOut == 0 && t.value.state.pending == [v1, v2] &&
            JoinsLeft(t.value.state) == 2
  {
    var s0 := Initial<V>();
    var s1 := LaunchOne(s0, None);
    var s2 := LaunchOne(s1, None);
    var s3 := Join(s2, v1).state;
    var q3: seq<JoinOp<V>> := [DoJoin(v2)];
    var q2 := [DoJoin(v1)] + q3;
    var q1 := [DoLaunch(None)] + q2;
    var q0 := [DoLaunch(None)] + q1;
    ExecCons(s3, DoJoin(v2), []);
    assert [DoJoin(v2)] + [] == q3;
    ExecCons(s2, DoJoin(v1), q3);
    ExecCons(s1, DoLaunch(None), q2);
    ExecCons(s0, DoLaunch(None), q1);
    assert q0 == [DoLaunch(None), DoLaunch(None), DoJoin(v1), DoJoin(v2)];
  }

  /** Running `a` then `b` is running `a + b`: the final state is the one
      `b` reaches, and what is polled and fired concatenates. */
  lemma {:induction false} ExecAppend<V>(s: JoinState<V>, a: seq<JoinOp<V>>, b: seq<JoinOp<V>>)
    requires Exec(s, a).Some? && Exec(Exec(s, a).value.state, b).Some?
    ensures var t1 := Exec(s, a).value;
            var t2 := Exec(t1.state, b).value;
            Exec(s, a + b) == Some(Trace(t2.state, t1.polled + t2.polled, t1.fired + t2.fired))
    decreases |a|
  {
    if a == [] {
      assert a + b == b;
      var t2 := Exec(s, b).value;
      assert [] + t2.polled == t2.polled && [] + t2.fired == t2.fired;
    } else {
      ExecFirst(s, a);
      var o := Step(s, a[0]).value;
      var r := Exec(o.state, a[1..]).value;
      ExecAppend(o.state, a[1..], b);
      var t2 := Exec(r.state, b).value;
      assert (a + b)[0] == a[0];
      assert (a + b)[1..] == a[1..] + b;
      AppendAssoc(o.polled, r.polled, t2.polled);
      AppendAssoc(o.fired, r.fired, t2.fired);
    }
  }

  /** Three polls on two waiting values hand them out in order and leave
      nothing pending. */
  lemma ThreePollsDrain<V>(s: JoinState<V>, v1: V, v2: V)
    requires s.pending == [v1, v2]
    ensures var t := Exec(s, [DoPoll, DoPoll, DoPoll]);
            t.Some? && t.value.polled == [v1, v2] && t.value.state.pending == [] &&
            t.value.state.nOut == s.nOut
  {
    var s1 := Pending(s).state;
    var s2 := Pending(s1).state;
    assert s1.pending == [v2] && s2.pending == [];
    var p1: seq<JoinOp<V>> := [DoPoll];
    var p2 := [DoPoll] + p1;
    ExecCons(s2, DoPoll, []);
    assert [DoPoll] + [] == p1;
    ExecCons(s1, DoPoll, p1);
    ExecCons(s, DoPoll, p2);
    assert [DoPoll] + p2 == [DoPoll, DoPoll, DoPoll];
  }

  /** The same run followed by three polls: the values come back in join
      order, the third poll finds nothing, and the group is drained only
      once both values are taken. */
  lemma TwoJoinsThreePolls<V>(v1: V, v2: V)
    ensures var t := Exec(Initial<V>(), [DoLaunch(None), DoLaunch(None), DoJoin(v1), DoJoin(v2), DoPoll, DoPoll, DoPoll]);
            t.Some? && t.value.polled == [v1, v2] && JoinsLeft(t.value.state) == 0
  {
    var q: seq<JoinOp<V>> := [DoLaunch(None), DoLaunch(None), DoJoin(v1), DoJoin(v2)];
    var p: seq<JoinOp<V>> := [DoPoll, DoPoll, DoPoll];
    TwoJoinsQueueInOrder(v1, v2);
    ThreePollsDrain(Exec(Initial<V>(), q).value.state, v1, v2);
    ExecAppend(Initial<V>(), q, p);
    assert q + p == [DoLaunch(None), DoLaunch(None), DoJoin(v1), DoJoin(v2), DoPoll, DoPoll, DoPoll];
  }

  /** A waiter is called by the first join after it is set and not by the
      second. */
  lemma SecondJoinCallsNothing<V>(cb: Callback, v1: V, v2: V)
    ensures var t := Exec(Initial<V>(), [DoLaunch(None), DoLaunch(None), DoSetCb(Some(cb)), DoJoin(v1), DoJoin(v2)]);
            t.Some? && t.value.fired == [cb] && t.value.state.joinCb == None
  {
    var s0 := Initial<V>();
    var s1 := LaunchOne(s0, None);
    var s2 := LaunchOne(s1, None);
    var s3 := SetJoinCb(s2, Some(cb));
    var s4 := Join(s3, v1).state;
    var s5 := Join(s4, v2).state;
    ExecCons(s4, DoJoin(v2), []);
    ExecCons(s3, DoJoin(v1), [DoJoin(v2)]);
    ExecCons(s2, DoSetCb(Some(cb)), [DoJoin(v1), DoJoin(v2)]);
    ExecCons(s1, DoLaunch(None), [DoSetCb(Some(cb)), DoJoin(v1), DoJoin(v2)]);
    ExecCons(s0, DoLaunch(None), [DoLaunch(None), DoSetCb(Some(cb)), DoJoin(v1), DoJoin(v2)]);
  }

  // ---------------------------------------------------------------------
  // The dedup key as written

  /** `_closure_bhash` is a `bhash<u_int>` while closure ids are
      `u_int64_t`: the key stored and looked up is the id truncated to 32
      bits. */
  function BhashKey(id: nat): (k: nat)
    ensures k < 0x1_0000_0000
    ensures id < 0x1_0000_0000 ==> k == id
  {
    ToUInt(id)
  }

  /** `associate_closure` as written, deduplicating on the truncated key. */
  function AssociateClosureAsWritten<V>(s: JoinState<V>, id: nat): (r: JoinState<V>)
    ensures BhashKey(id) in r.keys
    ensures BhashKey(id) in s.keys ==> r == s
  {
    if BhashKey(id) in s.keys then s
    else s.(keys := s.keys + {BhashKey(id)}, registered := s.registered + [id])
  }

  /** With the truncated key, closure 2^32 + 1 is taken for closure 1 and
      never registered, although its id is new; keying on the full id, as
      `AssociateClosure` does, registers both. */
  lemma TruncatedKeySkipsNewClosure<V>()
    ensures var s := AssociateClosureAsWritten(Initial<V>(), 1);
            AssociateClosureAsWritten(s, 0x1_0000_0001).registered == [1]
    ensures var s := AssociateClosure(Initial<V>(), 1);
            AssociateClosure(s, 0x1_0000_0001).registered == [1, 0x1_0000_0001]
  {
    assert BhashKey(0x1_0000_0001) == 1;
  }
}
