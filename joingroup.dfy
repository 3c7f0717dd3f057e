/** Join groups as objects (async/tame.h:300-543): `join_group_pointer_t`,
    the `joiner_t` that feeds it through a weak reference, and the
    `join_group_t` handle the rewritten code holds. Each state change is
    tied to the value-level step in JoinModel; the effects on the closures
    and on the environment are stated here. */
module JoinGroups {
  import opened Runtime
  import opened Weak
  import opened Closures
  import JM = JoinModel

  const LeakMessage: string := "non-joined continuations leaked!"
  const OutOfScopeMessage: string := "join_group went out of scope"

  function DigitChar(d: nat): (c: char)
    requires d < 10
    ensures '0' <= c <= '9' && c as int - '0' as int == d
  {
    ('0' as int + d) as char
  }

  predicate IsDigits(s: string)
  {
    |s| > 0 && forall k :: 0 <= k < |s| ==> '0' <= s[k] <= '9'
  }

  /** Digits without a leading zero, except for "0" itself. */
  predicate CanonicalDigits(s: string)
  {
    IsDigits(s) && (s[0] == '0' ==> |s| == 1)
  }

  /** The number a string of decimal digits denotes. */
  function DigitsValue(s: string): nat
    requires forall k :: 0 <= k < |s| ==> '0' <= s[k] <= '9'
  {
    if s == [] then 0
    else
      assert '0' <= s[|s| - 1];
      DigitsValue(s[..|s| - 1]) * 10 + (s[|s| - 1] as int - '0' as int)
  }

  /** What `%d` may print: canonical digits, with a '-' before a non-zero
      magnitude. */
  predicate IsDecimal(s: string)
  {
    CanonicalDigits(s) || (|s| > 1 && s[0] == '-' && s[1] != '0' && CanonicalDigits(s[1..]))
  }

  function DecimalValue(s: string): int
    requires IsDecimal(s)
  {
    if s[0] == '-' then -(DigitsValue(s[1..]) as int) else DigitsValue(s)
  }

  function NatToString(n: nat): (r: string)
    ensures |r| > 0 && '0' <= r[|r| - 1] <= '9'
    ensures forall k :: 0 <= k < |r| ==> '0' <= r[k] <= '9'
  {
    if n < 10 then [DigitChar(n)] else NatToString(n / 10) + [DigitChar(n % 10)]
  }

  /** `%d`. */
  function IntToString(n: int): (r: string)
    ensures |r| > 0 && '0' <= r[|r| - 1] <= '9'
  {
    if n < 0 then "-" + NatToString(-n) else NatToString(n)
  }

  /** The digits of `n` are canonical and denote `n`. */
  lemma {:induction false} NatToStringValue(n: nat)
    ensures CanonicalDigits(NatToString(n)) && DigitsValue(NatToString(n)) == n
  {
    if n >= 10 {
      var q := NatToString(n / 10);
      NatToStringValue(n / 10);
      var r := q + [DigitChar(n % 10)];
      assert r[..|r| - 1] == q;
      assert r[0] == q[0];
    }
  }

  /** A canonical digit string is a non-zero number unless it is "0". */
  lemma {:induction false} LeadingDigitPositive(s: string)
    requires IsDigits(s) && s[0] != '0'
    ensures DigitsValue(s) >= 1
    decreases |s|
  {
    if |s| > 1 {
      var p := s[..|s| - 1];
      assert p[0] == s[0];
      LeadingDigitPositive(p);
    }
  }

  /** Printing the value of canonical digits gives the digits back. */
  lemma {:induction false} DigitsValueToString(s: string)
    requires CanonicalDigits(s)
    ensures NatToString(DigitsValue(s)) == s
    decreases |s|
  {
    if |s| == 1 {
      assert DigitsValue(s) == DigitsValue(s[..0]) * 10 + (s[0] as int - '0' as int);
      assert [DigitChar(DigitsValue(s))] == s;
    } else {
      var p := s[..|s| - 1];
      assert p[0] == s[0];
      LeadingDigitPositive(p);
      DigitsValueToString(p);
      var v := DigitsValue(s);
      var d := s[|s| - 1] as int - '0' as int;
      assert v / 10 == DigitsValue(p) && v % 10 == d;
      assert s == p + [DigitChar(d)];
    }
  }

  /** `IntToString` and `DecimalValue` are inverse: every integer prints
      as a decimal denoting it, and every decimal is how its value prints. */
  lemma IntToStringValue(n: int)
    ensures IsDecimal(IntToString(n)) && DecimalValue(IntToString(n)) == n
  {
    NatToStringValue(if n < 0 then -n else n);
    if n < 0 {
      assert IntToString(n)[1..] == NatToString(-n);
    }
  }

  lemma DecimalValueToString(s: string)
    requires IsDecimal(s)
    ensures IntToString(DecimalValue(s)) == s
  {
    if s[0] == '-' {
      var t := s[1..];
      assert t[0] == s[1];
      LeadingDigitPositive(t);
      DigitsValueToString(t);
      assert s == "-" + t;
    } else {
      DigitsValueToString(s);
    }
  }

  /** The tag of a leak report: "file:line" when both are known (the file
      pointer is non-null and the line non-zero), the line printed in
      decimal; else "(unknown)". */
  function LeakLocation(file: Option<string>, lineno: int): (loc: string)
    ensures loc == "(unknown)" <==> file.None? || lineno == 0
    ensures file.Some? && lineno != 0 ==>
              |loc| > |file.value| + 1 && loc[..|file.value| + 1] == file.value + ":" &&
              IsDecimal(loc[|file.value| + 1..]) && DecimalValue(loc[|file.value| + 1..]) == lineno
  {
    if file.Some? && lineno != 0 then
      var r := file.value + ":" + IntToString(lineno);
      IntToStringValue(lineno);
      assert r[|r| - 1] != ')';
      assert r[..|file.value| + 1] == file.value + ":";
      assert r[|file.value| + 1..] == IntToString(lineno);
      r
    else "(unknown)"
  }

  /** The finalize tasks scheduled by weak-decrefing the first `n`
      registered closures in order. */
  function FinalizeTasks(cs: seq<Counter>, live: seq<bool>, n: nat): seq<Task>
    requires n <= |cs| == |live|
  {
    if n == 0 then []
    else FinalizeTasks(cs, live, n - 1) + Scheduled(FiredBy(cs[n - 1], live[n - 1]))
  }

  function Ids(ws: seq<WeakRef<Closure>>): (ids: seq<nat>)
    ensures |ids| == |ws|
    ensures forall j :: 0 <= j < |ws| ==> ids[j] == ws[j].target.id
  {
    if ws == [] then [] else [ws[0].target.id] + Ids(ws[1..])
  }

  ghost function CountsOf(ws: seq<WeakRef<Closure>>, watched: set<WeakCounted>): (cs: seq<Counter>)
    requires forall j :: 0 <= j < |ws| ==> ws[j].counted in watched
    reads watched
    ensures |cs| == |ws|
    ensures forall j :: 0 <= j < |ws| ==> cs[j] == ws[j].counted.State()
  {
    if ws == [] then [] else [ws[0].counted.State()] + CountsOf(ws[1..], watched)
  }

  ghost function LiveOf(ws: seq<WeakRef<Closure>>): (live: seq<bool>)
    reads set j | 0 <= j < |ws| :: ws[j].counted.mortal.destroyed
    ensures |live| == |ws|
    ensures forall j :: 0 <= j < |ws| ==> live[j] == ws[j].Pointer().Some?
  {
    if ws == [] then [] else [ws[0].Pointer().Some?] + LiveOf(ws[1..])
  }

  /** One pass of the `mark_dead` loop: `_closures[i].weak_decref ()`,
      which touches that closure's count and nothing else it can see; `c`
      and `live` name the entry's count and liveness beforehand. */
  method DecrefAt(ws: seq<WeakRef<Closure>>, i: nat, ghost c: Counter, ghost live: bool, env: Env)
    requires i < |ws|
    requires forall i, j :: 0 <= i < j < |ws| ==> ws[i].counted != ws[j].counted
    requires ws[i].counted.State() == c && ws[i].Pointer().Some? == live
    requires live ==> c.refcnt > 0
    modifies ws[i].counted, env
    ensures ws[i].counted.State() == CountAfter(c, live)
    ensures forall j :: 0 <= j < |ws| && j != i ==> ws[j].counted.State() == old(ws[j].counted.State())
    ensures forall j :: 0 <= j < |ws| ==> ws[j].Pointer() == old(ws[j].Pointer())
    ensures env.scheduled == old(env.scheduled) + Scheduled(FiredBy(c, live))
    ensures env.errors == old(env.errors) && env.invoked == old(env.invoked)
  {
    ws[i].WeakDecref(env);
  }

  /** The loop of `mark_dead` over `_closures`: `weak_decref` through each
      weak reference, in order; `snap` and `live` name every entry's count
      and liveness beforehand. */
  method DecrefAll(ws: seq<WeakRef<Closure>>, ghost cs: set<WeakCounted>,
                   ghost snap: seq<Counter>, ghost live: seq<bool>, env: Env)
    requires |snap| == |live| == |ws|
    requires forall j :: 0 <= j < |ws| ==> ws[j].counted in cs
    requires forall i, j :: 0 <= i < j < |ws| ==> ws[i].counted != ws[j].counted
    requires forall j :: 0 <= j < |ws| ==> ws[j].counted.State() == snap[j] && ws[j].Pointer().Some? == live[j]
    requires forall j :: 0 <= j < |ws| && live[j] ==> snap[j].refcnt > 0
    modifies env, cs
    ensures forall j :: 0 <= j < |ws| ==> ws[j].counted.State() == CountAfter(snap[j], live[j])
    ensures forall j :: 0 <= j < |ws| ==> ws[j].Pointer().Some? == live[j]
    ensures env.scheduled == old(env.scheduled) + FinalizeTasks(snap, live, |ws|)
    ensures env.errors == old(env.errors) && env.invoked == old(env.invoked)
  {
    var i := 0;
    while i < |ws|
      invariant 0 <= i <= |ws|
      invariant forall j :: 0 <= j < |ws| ==> ws[j].Pointer().Some? == live[j]
      invariant forall j :: 0 <= j < |ws| ==>
                  ws[j].counted.State() == if j < i then CountAfter(snap[j], live[j]) else snap[j]
      invariant env.scheduled == old(env.scheduled) + FinalizeTasks(snap, live, i)
      invariant env.errors == old(env.errors) && env.invoked == old(env.invoked)
    {
      DecrefAt(ws, i, snap[i], live[i], env);
      AppendAssoc(old(env.scheduled), FinalizeTasks(snap, live, i), Scheduled(FiredBy(snap[i], live[i])));
      i := i + 1;
    }
  }

  /** Each entry is seen through its own closure's weak count, no two
      entries share one, and all of them are in `watched`. */
  ghost predicate Coherent(ws: seq<WeakRef<Closure>>, watched: set<WeakCounted>)
  {
    (forall j :: 0 <= j < |ws| ==> ws[j].counted == ws[j].target.base && ws[j].counted in watched) &&
    (forall i, j :: 0 <= i < j < |ws| ==> ws[i].counted != ws[j].counted)
  }

  lemma CoherentAppend(ws: seq<WeakRef<Closure>>, watched: set<WeakCounted>, c: Closure)
    requires Coherent(ws, watched)
    requires forall j :: 0 <= j < |ws| ==> ws[j].counted != c.base
    ensures Coherent(ws + [WeakRef(c, c.base)], watched + {c.base})
  {
  }

  /** `join_group_pointer_t`, with the value set as the type parameter. */
  class JoinGroup<V> {
    const base: WeakCounted              // the weak_refcounted_t part
    const file: Option<string>           // `_file`, possibly NULL
    const lineno: int                    // `_lineno`
    var nOut: nat                        // `_n_out`
    var pending: seq<V>                  // `_pending`
    var joinCb: Option<Callback>         // `_join_cb`
    var closureKeys: set<nat>            // `_closure_bhash`
    var closures: seq<WeakRef<Closure>>  // `_closures`
    ghost var watched: set<WeakCounted>  // the weak counts of everything ever registered

    /** The group's two flag cells are distinct, the registered closures
        are tracked coherently, and the dedup set and the list agree. */
    ghost predicate Valid()
      reads this
    {
      base.mortal.destroyed != base.mortal.dead &&
      Coherent(closures, watched) && JM.Registry(State())
    }

    function State(): JM.JoinState<V>
      reads this
    {
      JM.JoinState(nOut, pending, joinCb, closureKeys, Ids(closures))
    }

    /** Whether `c`'s weak count is already among the registered ones. */
    ghost predicate Watches(c: WeakCounted)
      reads this
    {
      !forall j :: 0 <= j < |closures| ==> closures[j].counted != c
    }

    constructor (f: Option<string>, l: int)
      ensures Valid() && State() == JM.Initial()
      ensures file == f && lineno == l && closures == [] && watched == {}
      ensures fresh(base) && fresh(base.mortal) && fresh(base.mortal.destroyed) && fresh(base.mortal.dead)
      ensures base.State() == Counter(1, None)
      ensures !base.mortal.destroyed.b && !base.mortal.dead.b && base.mortal.destroyed != base.mortal.dead
    {
      base := new WeakCounted();
      file, lineno := f, l;
      nOut, pending, joinCb := 0, [], None;
      closureKeys, closures := {}, [];
      watched := {};
    }

    function NPending(): (n: nat)
      reads this
      ensures n == |State().pending|
    {
      |pending|
    }

    function NOut(): (n: nat)
      reads this
      ensures n == State().nOut
    {
      nOut
    }

    /** Zero exactly when nothing is out and nothing waits to be taken. */
    function NJoinsLeft(): (n: nat)
      reads this
      ensures n == NOut() + NPending()
      ensures n == 0 <==> nOut == 0 && pending == []
    {
      nOut + |pending|
    }

    function NeedJoin(): (r: bool)
      reads this
      ensures r <==> NJoinsLeft() > 0
      ensures r <==> JM.NeedJoin(State())
    {
      NJoinsLeft() > 0
    }

    method SetJoinCb(c: Option<Callback>)
      modifies this
      ensures State() == JM.SetJoinCb(old(State()), c)
      ensures closures == old(closures) && watched == old(watched) && Valid() == old(Valid())
    {
      joinCb := c;
    }

    /** `associate_closure`: a closure whose id is new is registered, weakly
        incref'd and told about this group; a known id changes nothing. */
    method AssociateClosure(c: Closure, jgwp: object?)
      requires Valid()
      requires c.id !in closureKeys ==> !Watches(c.base)
      modifies this, c, c.base
      ensures Valid()
      ensures State() == JM.AssociateClosure(old(State()), c.id)
      ensures old(c.id in closureKeys) ==>
                closures == old(closures) && watched == old(watched) && unchanged(c, c.base)
      ensures old(c.id !in closureKeys) ==>
                closures == old(closures) + [WeakRef(c, c.base)] &&
                watched == old(watched) + {c.base} &&
                c.base.State() == (if c.base.mortal.destroyed.b then old(c.base.State())
                                   else Counter(old(c.base.refcnt) + 1, old(c.base.finalizeCb))) &&
                c.joinGroups == old(c.joinGroups) + [(base.mortal.MakeMortalRef(), jgwp)] &&
                c.jumpto == old(c.jumpto) && c.cceocCount == old(c.cceocCount) &&
                c.hasCceoc == old(c.hasCceoc)
    {
      var p := c.id;
      if p !in closureKeys {
        closureKeys := closureKeys + {p};
        var wr := WeakRef(c, c.base);
        wr.WeakIncref();
        closures := closures + [wr];
        watched := watched + {c.base};
        c.AssociateJoinGroup(base.mortal.MakeMortalRef(), jgwp);
        CoherentAppend(old(closures), old(watched), c);
        JM.AssociateKeepsRegistry(old(State()), p);
        assert Ids(closures) == old(Ids(closures)) + [p];
      }
    }

    /** `add_join`: one more call out; nothing else changes. */
    method AddJoin()
      modifies this
      ensures State() == JM.AddJoin(old(State()))
      ensures nOut == old(nOut) + 1
      ensures closures == old(closures) && watched == old(watched) && Valid() == old(Valid())
    {
      nOut := nOut + 1;
    }

    /** `remove_join`: its assertion is the precondition. */
    method RemoveJoin()
      requires nOut > 0
      modifies this
      ensures State() == JM.RemoveJoin(old(State()))
      ensures nOut == old(nOut) - 1
      ensures closures == old(closures) && watched == old(watched) && Valid() == old(Valid())
    {
      nOut := nOut - 1;
    }

    /** `launch_one (c, jgwp)`. */
    method LaunchOne(c: Closure?, jgwp: object?)
      requires Valid()
      requires c != null && c.id !in closureKeys ==> !Watches(c.base)
      modifies this, if c != null then {c, c.base} else {}
      ensures Valid()
      ensures State() == JM.LaunchOne(old(State()), if c == null then None else Some(c.id))
      ensures c == null || old(c.id in closureKeys) ==> closures == old(closures) && watched == old(watched)
      ensures c != null && old(c.id in closureKeys) ==> unchanged(c, c.base)
      ensures c != null && old(c.id !in closureKeys) ==>
                closures == old(closures) + [WeakRef(c, c.base)] &&
                watched == old(watched) + {c.base} &&
                c.base.State() == (if c.base.mortal.destroyed.b then old(c.base.State())
                                   else Counter(old(c.base.refcnt) + 1, old(c.base.finalizeCb))) &&
                c.joinGroups == old(c.joinGroups) + [(base.mortal.MakeMortalRef(), jgwp)] &&
                c.jumpto == old(c.jumpto) && c.cceocCount == old(c.cceocCount) &&
                c.hasCceoc == old(c.hasCceoc)
    {
      if c != null {
        AssociateClosure(c, jgwp);
      }
      AddJoin();
    }

    /** `join (v)`: the value goes to the back of the queue; a waiter, if
        set, is cleared first and then called synchronously. */
    method Join(v: V, env: Env)
      requires nOut > 0
      modifies this, env
      ensures State() == JM.Join(old(State()), v).state
      ensures env.invoked == old(env.invoked) + Listed(JM.Join(old(State()), v).fired)
      ensures env.errors == old(env.errors) && env.scheduled == old(env.scheduled)
      ensures closures == old(closures) && watched == old(watched) && Valid() == old(Valid())
    {
      nOut := nOut - 1;
      pending := pending + [v];
      if joinCb.Some? {
        var cb := joinCb.value;
        joinCb := None;
        env.invoked := env.invoked + [cb];
      }
    }

    /** `pending (&p)`: false, with `p` untouched, on an empty queue;
        otherwise true and the oldest value, which leaves the queue. */
    method Pending(p: V) returns (ok: bool, v: V)
      modifies this
      ensures ok <==> old(pending) != []
      ensures ok ==> v == old(pending)[0]
      ensures !ok ==> v == p
      ensures State() == JM.Pending(old(State())).state
      ensures closures == old(closures) && watched == old(watched) && Valid() == old(Valid())
    {
      ok, v := false, p;
      if |pending| > 0 {
        v := pending[0];
        pending := pending[1..];
        ok := true;
      }
    }

    /** The loop of `mark_dead`: weakly decref every registered closure
        that still lives. `counts` and `live` snapshot the closures' weak
        counters and liveness on entry. */
    method ReleaseClosures(env: Env) returns (ghost counts: seq<Counter>, ghost live: seq<bool>)
      requires Coherent(closures, watched)
      requires forall j :: 0 <= j < |closures| && closures[j].Pointer().Some? ==> closures[j].counted.refcnt > 0
      modifies env, watched
      ensures |counts| == |live| == |closures|
      ensures forall j :: 0 <= j < |closures| ==>
                counts[j] == old(closures[j].counted.State()) && live[j] == closures[j].Pointer().Some?
      ensures forall j :: 0 <= j < |closures| ==> closures[j].counted.State() == CountAfter(counts[j], live[j])
      ensures env.scheduled == old(env.scheduled) + FinalizeTasks(counts, live, |closures|)
      ensures env.errors == old(env.errors) && env.invoked == old(env.invoked)
    {
      counts := CountsOf(closures, watched);
      live := LiveOf(closures);
      DecrefAll(closures, watched, counts, live, env);
    }

    /** The body of `mark_dead` past its guard: raise `dead`, report a
        leak when joins are left, then release the closures. `dead` is the
        group's own cell, which neither the report nor the release reads,
        so the model raises it last. */
    method Kill(env: Env) returns (ghost counts: seq<Counter>, ghost live: seq<bool>)
      requires !base.mortal.dead.b
      requires Coherent(closures, watched)
      requires forall j :: 0 <= j < |closures| && closures[j].Pointer().Some? ==> closures[j].counted.refcnt > 0
      modifies base.mortal.dead, env, watched
      ensures base.mortal.dead.b
      ensures |counts| == |live| == |closures|
      ensures forall j :: 0 <= j < |closures| ==>
                counts[j] == old(closures[j].counted.State()) && live[j] == old(closures[j].Pointer().Some?)
      ensures env.errors == old(env.errors) +
                (if old(NeedJoin()) then [Report(LeakLocation(file, lineno), LeakMessage)] else [])
      ensures forall j :: 0 <= j < |closures| ==> closures[j].counted.State() == CountAfter(counts[j], live[j])
      ensures env.scheduled == old(env.scheduled) + FinalizeTasks(counts, live, |closures|)
      ensures env.invoked == old(env.invoked)
    {
      if NeedJoin() {
        env.Error(LeakLocation(file, lineno), LeakMessage);
      }
      counts, live := ReleaseClosures(env);
      base.mortal.dead.b := true;
    }

    /** `mark_dead`: the first call does what `Kill` describes; later calls
        return at once and change nothing. */
    method MarkDead(env: Env) returns (ghost counts: seq<Counter>, ghost live: seq<bool>)
      requires Coherent(closures, watched)
      requires !base.mortal.dead.b ==> forall j :: 0 <= j < |closures| && closures[j].Pointer().Some? ==> closures[j].counted.refcnt > 0
      modifies base.mortal.dead, env, watched
      ensures base.mortal.dead.b
      ensures |counts| == |live| == |closures|
      ensures forall j :: 0 <= j < |closures| ==>
                counts[j] == old(closures[j].counted.State()) && live[j] == old(closures[j].Pointer().Some?)
      ensures old(base.mortal.dead.b) ==>
                env.errors == old(env.errors) && env.scheduled == old(env.scheduled) &&
                forall j :: 0 <= j < |closures| ==> closures[j].counted.State() == counts[j]
      ensures !old(base.mortal.dead.b) ==>
                env.errors == old(env.errors) +
                  (if old(NeedJoin()) then [Report(LeakLocation(file, lineno), LeakMessage)] else []) &&
                (forall j :: 0 <= j < |closures| ==> closures[j].counted.State() == CountAfter(counts[j], live[j])) &&
                env.scheduled == old(env.scheduled) + FinalizeTasks(counts, live, |closures|)
      ensures env.invoked == old(env.invoked)
    {
      if base.mortal.dead.b {
        counts := CountsOf(closures, watched);
        live := LiveOf(closures);
        return;
      }
      counts, live := Kill(env);
    }

    /** `~join_group_pointer_t`: `mark_dead`, then the base destructor
        raises `destroyed`. */
    method Destroy(env: Env) returns (ghost counts: seq<Counter>, ghost live: seq<bool>)
      requires Coherent(closures, watched)
      requires !base.mortal.dead.b ==> forall j :: 0 <= j < |closures| && closures[j].Pointer().Some? ==> closures[j].counted.refcnt > 0
      modifies base.mortal.dead, base.mortal.destroyed, env, watched
      ensures base.mortal.dead.b && base.mortal.destroyed.b
      ensures |counts| == |live| == |closures|
      ensures forall j :: 0 <= j < |closures| ==>
                counts[j] == old(closures[j].counted.State()) && live[j] == old(closures[j].Pointer().Some?)
      ensures old(base.mortal.dead.b) ==>
                env.errors == old(env.errors) && env.scheduled == old(env.scheduled) &&
                forall j :: 0 <= j < |closures| ==> closures[j].counted.State() == counts[j]
      ensures !old(base.mortal.dead.b) ==>
                env.errors == old(env.errors) +
                  (if old(NeedJoin()) then [Report(LeakLocation(file, lineno), LeakMessage)] else []) &&
                (forall j :: 0 <= j < |closures| ==> closures[j].counted.State() == CountAfter(counts[j], live[j])) &&
                env.scheduled == old(env.scheduled) + FinalizeTasks(counts, live, |closures|)
      ensures env.invoked == old(env.invoked)
    {
      counts, live := MarkDead(env);
      base.mortal.Destroy();
    }
  }

  /** `joiner_t`: delivers into a join group it only weakly references. */
  class Joiner<V> {
    const weakRef: WeakRef<JoinGroup<V>>
    const loc: string
    var inFlight: seq<V>   // the values bound into the scheduled `join_cb` calls

    constructor (p: JoinGroup<V>, l: string)
      ensures weakRef == WeakRef(p, p.base) && loc == l && inFlight == []
    {
      weakRef := WeakRef(p, p.base);
      loc := l;
      inFlight := [];
    }

    /** `join (w)`: never delivers now; schedules `join_cb (w)`. */
    method Join(w: V, env: Env)
      modifies this, env
      ensures env.scheduled == old(env.scheduled) + [JoinerCb(this)]
      ensures inFlight == old(inFlight) + [w]
      ensures env.errors == old(env.errors) && env.invoked == old(env.invoked)
    {
      env.scheduled := env.scheduled + [JoinerCb(this)];
      inFlight := inFlight + [w];
    }

    /** `join_cb (w)`, run by the event loop: the scheduled calls run in
        the order `join` scheduled them, so `w` is the oldest value in
        flight. Reports when the group is destroyed, otherwise forwards to
        its `join`. */
    method JoinCb(env: Env) returns (w: V)
      requires inFlight != []
      requires weakRef.Pointer().Some? ==> weakRef.target.nOut > 0
      modifies this, env, weakRef.target
      ensures w == old(inFlight[0]) && inFlight == old(inFlight[1..])
      ensures weakRef.Pointer().None? ==>
                env.errors == old(env.errors) + [Report(loc, OutOfScopeMessage)] &&
                env.invoked == old(env.invoked) && unchanged(weakRef.target)
      ensures weakRef.Pointer().Some? ==>
                weakRef.target.State() == JM.Join(old(weakRef.target.State()), w).state &&
                env.invoked == old(env.invoked) + Listed(JM.Join(old(weakRef.target.State()), w).fired) &&
                env.errors == old(env.errors) &&
                weakRef.target.closures == old(weakRef.target.closures) &&
                weakRef.target.watched == old(weakRef.target.watched)
      ensures env.scheduled == old(env.scheduled)
    {
      w := inFlight[0];
      inFlight := inFlight[1..];
      if weakRef.Pointer().None? {
        env.Error(loc, OutOfScopeMessage);
      } else {
        weakRef.target.Join(w, env);
      }
    }
  }

  /** `join_group_t`: the handle generated code holds; every query and
      update forwards to the shared `join_group_pointer_t`. */
  class JoinGroupHandle<V> {
    const pointer: JoinGroup<V>

    /** `join_group_t (f, l)`: a new group. */
    constructor (f: Option<string>, l: int)
      ensures fresh(pointer) && fresh(pointer.base) && fresh(pointer.base.mortal)
      ensures fresh(pointer.base.mortal.destroyed) && fresh(pointer.base.mortal.dead)
      ensures pointer.Valid() && pointer.State() == JM.Initial()
      ensures pointer.file == f && pointer.lineno == l && pointer.closures == [] && pointer.watched == {}
      ensures !pointer.base.mortal.destroyed.b && !pointer.base.mortal.dead.b
      ensures pointer.base.mortal.destroyed != pointer.base.mortal.dead
    {
      pointer := new JoinGroup(f, l);
    }

    /** `join_group_t (p)`: another handle on an existing group. */
    constructor FromPointer(p: JoinGroup<V>)
      ensures pointer == p
    {
      pointer := p;
    }

    method AddJoin()
      modifies pointer
      ensures pointer.State() == JM.AddJoin(old(pointer.State()))
      ensures pointer.closures == old(pointer.closures) && pointer.watched == old(pointer.watched) && pointer.Valid() == old(pointer.Valid())
    {
      pointer.AddJoin();
    }

    method RemoveJoin()
      requires pointer.nOut > 0
      modifies pointer
      ensures pointer.State() == JM.RemoveJoin(old(pointer.State()))
      ensures pointer.closures == old(pointer.closures) && pointer.watched == old(pointer.watched) && pointer.Valid() == old(pointer.Valid())
    {
      pointer.RemoveJoin();
    }

    function NPending(): (n: nat)
      reads pointer
      ensures n == |pointer.State().pending|
    {
      pointer.NPending()
    }

    function NOut(): (n: nat)
      reads pointer
      ensures n == pointer.State().nOut
    {
      pointer.NOut()
    }

    function NJoinsLeft(): (n: nat)
      reads pointer
      ensures n == JM.JoinsLeft(pointer.State())
    {
      pointer.NJoinsLeft()
    }

    function NeedJoin(): (r: bool)
      reads pointer
      ensures r <==> JM.NeedJoin(pointer.State())
    {
      pointer.NeedJoin()
    }

    method Pending(p: V) returns (ok: bool, v: V)
      modifies pointer
      ensures ok <==> old(pointer.pending) != []
      ensures ok ==> v == old(pointer.pending)[0]
      ensures !ok ==> v == p
      ensures pointer.State() == JM.Pending(old(pointer.State())).state
      ensures pointer.closures == old(pointer.closures) && pointer.watched == old(pointer.watched) && pointer.Valid() == old(pointer.Valid())
    {
      ok, v := pointer.Pending(p);
    }

    method SetJoinCb(c: Option<Callback>)
      modifies pointer
      ensures pointer.State() == JM.SetJoinCb(old(pointer.State()), c)
      ensures pointer.closures == old(pointer.closures) && pointer.watched == old(pointer.watched) && pointer.Valid() == old(pointer.Valid())
    {
      pointer.SetJoinCb(c);
    }

    /** `launch_one (c)`: this handle is the wrapper token the closure
        records. */
    method LaunchOne(c: Closure?)
      requires pointer.Valid()
      requires c != null && c.id !in pointer.closureKeys ==> !pointer.Watches(c.base)
      modifies pointer, if c != null then {c, c.base} else {}
      ensures pointer.Valid()
      ensures pointer.State() == JM.LaunchOne(old(pointer.State()), if c == null then None else Some(c.id))
      ensures c == null || old(c.id in pointer.closureKeys) ==>
                pointer.closures == old(pointer.closures) && pointer.watched == old(pointer.watched)
      ensures c != null && old(c.id in pointer.closureKeys) ==> unchanged(c, c.base)
      ensures c != null && old(c.id !in pointer.closureKeys) ==>
                pointer.closures == old(pointer.closures) + [WeakRef(c, c.base)] &&
                pointer.watched == old(pointer.watched) + {c.base} &&
                c.base.State() == (if c.base.mortal.destroyed.b then old(c.base.State())
                                   else Counter(old(c.base.refcnt) + 1, old(c.base.finalizeCb))) &&
                c.joinGroups == old(c.joinGroups) + [(pointer.base.mortal.MakeMortalRef(), this)] &&
                c.jumpto == old(c.jumpto) && c.cceocCount == old(c.cceocCount) &&
                c.hasCceoc == old(c.hasCceoc)
    {
      pointer.LaunchOne(c, this);
    }

    /** `make_joiner (loc)`: a joiner weakly bound to this group. */
    method MakeJoiner(loc: string) returns (j: Joiner<V>)
      ensures fresh(j)
      ensures j.weakRef == WeakRef(pointer, pointer.base) && j.loc == loc && j.inFlight == []
    {
      j := new Joiner(pointer, loc);
    }
  }

  // ---------------------------------------------------------------------
  // Whole lifetimes

  /** A group with one call launched and never joined is marked dead, then
      destroyed, whose destructor marks it dead again: the leak is reported
      once, tagged with the creation site. */
  method LeakReportedOnce(env: Env)
    modifies env
    ensures env.errors == old(env.errors) + [Report("loop.T:12", LeakMessage)]
    ensures env.scheduled == old(env.scheduled) && env.invoked == old(env.invoked)
  {
    var g := new JoinGroupHandle<int>(Some("loop.T"), 12);
    g.LaunchOne(null);
    assert LeakLocation(Some("loop.T"), 12) == "loop.T:12";
    var _, _ := g.pointer.MarkDead(env);
    var _, _ := g.pointer.Destroy(env);
  }

  /** A new group at `fetch.T:52` with one new closure launched under it:
      the launch holds a weak reference on the closure. */
  method LaunchedGroup() returns (g: JoinGroupHandle<int>, c: Closure)
    ensures fresh(g.pointer) && fresh(g.pointer.base.mortal.dead) && fresh(g.pointer.base.mortal.destroyed)
    ensures fresh(c.base) && g.pointer.watched == {c.base}
    ensures g.pointer.Valid() && g.pointer.closures == [WeakRef(c, c.base)]
    ensures g.pointer.file == Some("fetch.T") && g.pointer.lineno == 52 && g.pointer.NeedJoin()
    ensures !g.pointer.base.mortal.dead.b && !c.base.mortal.destroyed.b && c.base.State() == Counter(2, None)
  {
    var serial := new SerialCounter();
    c := new Closure(false, serial);
    g := new JoinGroupHandle<int>(Some("fetch.T"), 52);
    g.LaunchOne(c);
  }

  /** Destroying that group reports the unjoined call and gives back the
      weak reference the launch took on the closure. */
  method ClosureReleasedOnDestroy(env: Env)
    modifies env
    ensures env.errors == old(env.errors) + [Report("fetch.T:52", LeakMessage)]
    ensures env.scheduled == old(env.scheduled) && env.invoked == old(env.invoked)
  {
    var g, c := LaunchedGroup();
    assert LeakLocation(Some("fetch.T"), 52) == "fetch.T:52";
    ghost var counts, live := g.pointer.Destroy(env);
    assert counts[0] == Counter(2, None) && live[0];
    assert c.base.refcnt == 1;
  }

  /** A joiner outlives its group: the join it was asked for is scheduled,
      and when it runs it reports that the group went out of scope instead
      of delivering. */
  method JoinerOutlivesGroup(env: Env)
    modifies env
    ensures env.errors == old(env.errors) + [Report("fetch.T:40", OutOfScopeMessage)]
    ensures |env.scheduled| == |old(env.scheduled)| + 1 && env.scheduled[|old(env.scheduled)|].JoinerCb?
    ensures env.invoked == old(env.invoked)
  {
    var g := new JoinGroupHandle<int>(Some("fetch.T"), 31);
    var j := g.MakeJoiner("fetch.T:40");
    var _, _ := g.pointer.Destroy(env);
    j.Join(7, env);
    var w := j.JoinCb(env);
    assert w == 7;
  }
}
