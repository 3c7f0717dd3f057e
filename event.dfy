/** Cancellable events (`_event_cancel_base`, libtame/tame_event.h:22-87):
    the flags that decide whether triggering an event still reaches its
    action. `tame_strict_mode ()` becomes a `strict` parameter and the
    virtual `perform_action` an `action` argument holding what it returns. */
module Events {
  import opened Runtime

  const CancelledMessage := "event triggered after it was cancelled"
  const ClearedMessage := "event triggered after it was cleared"

  /** `_loc`, `_cancelled`, `_cleared`, `_reuse`. */
  datatype EventState = EventState(loc: string, cancelled: bool, cleared: bool, reuse: bool)

  /** The state the constructor and `reinit` establish. */
  function Fresh(loc: string): (e: EventState)
    ensures e.loc == loc && !e.cancelled && !e.cleared && !e.reuse
  {
    EventState(loc, false, false, false)
  }

  /** Whether an event may still fire: the answer of `can_trigger` and the
      error it reports, if any. */
  datatype Verdict = Verdict(ok: bool, report: Option<Report>)

  function Check(e: EventState, strict: bool): (v: Verdict)
    ensures v.ok <==> !e.cancelled && !e.cleared
    ensures v.ok ==> v.report == None
    ensures e.cancelled ==> (v.report.Some? <==> strict)
    ensures e.cancelled && strict ==> v.report == Some(Report(e.loc, CancelledMessage))
    ensures !e.cancelled && e.cleared ==> v.report == Some(Report(e.loc, ClearedMessage))
  {
    if e.cancelled then
      Verdict(false, if strict then Some(Report(e.loc, CancelledMessage)) else None)
    else if e.cleared then
      Verdict(false, Some(Report(e.loc, ClearedMessage)))
    else
      Verdict(true, None)
  }

  /** One `trigger_no_assign`: the new flags, the error reported, and
      whether the action was performed. */
  datatype Outcome = Outcome(state: EventState, report: Option<Report>, acted: bool)

  function Trigger(e: EventState, strict: bool, action: bool): (o: Outcome)
    ensures o.acted <==> Check(e, strict).ok
    ensures o.report == Check(e, strict).report
    ensures o.state.loc == e.loc && o.state.cancelled == e.cancelled && o.state.reuse == e.reuse
    ensures o.state.cleared <==> e.cleared || (o.acted && action)
    ensures !o.acted ==> o.state == e
  {
    var v := Check(e, strict);
    if v.ok && action then Outcome(e.(cleared := true), v.report, true)
    else Outcome(e, v.report, v.ok)
  }

  /** A sequence of triggers; `actions[i]` is what the `i`-th call's
      action would return. */
  datatype Run = Run(state: EventState, reports: seq<Report>, performed: nat)

  function TriggerAll(e: EventState, strict: bool, actions: seq<bool>): Run
    decreases |actions|
  {
    if actions == [] then Run(e, [], 0)
    else
      var o := Trigger(e, strict, actions[0]);
      var r := TriggerAll(o.state, strict, actions[1..]);
      Run(r.state, Listed(o.report) + r.reports, (if o.acted then 1 else 0) + r.performed)
  }

  /** A cancelled or cleared event never reaches its action again and
      never changes; each attempt reports, except that a cancelled event
      stays silent outside strict mode. */
  lemma {:induction false} SettledIgnoresTriggers(e: EventState, strict: bool, actions: seq<bool>)
    requires e.cancelled || e.cleared
    ensures TriggerAll(e, strict, actions).state == e
    ensures TriggerAll(e, strict, actions).performed == 0
    ensures TriggerAll(e, strict, actions).reports ==
              if e.cancelled && !strict then []
              else Repeat(Report(e.loc, if e.cancelled then CancelledMessage else ClearedMessage), |actions|)
    decreases |actions|
  {
    if actions != [] {
      SettledIgnoresTriggers(e, strict, actions[1..]);
    }
  }

  function Repeat<T>(x: T, n: nat): (r: seq<T>)
    ensures |r| == n && forall i :: 0 <= i < n ==> r[i] == x
  {
    if n == 0 then [] else [x] + Repeat(x, n - 1)
  }

  /** When the action clears the event (it returns true), a live event
      performs it exactly once however often it is triggered, and in either
      mode each later trigger reports that the event was cleared. */
  lemma {:induction false} ClearingEventFiresOnce(e: EventState, strict: bool, actions: seq<bool>)
    requires !e.cancelled && !e.cleared
    requires forall i :: 0 <= i < |actions| ==> actions[i]
    ensures TriggerAll(e, strict, actions).performed == if actions == [] then 0 else 1
    ensures actions != [] ==> TriggerAll(e, strict, actions).state == e.(cleared := true)
    ensures actions != [] ==>
              TriggerAll(e, strict, actions).reports == Repeat(Report(e.loc, ClearedMessage), |actions| - 1)
  {
    if actions != [] {
      var o := Trigger(e, strict, actions[0]);
      SettledIgnoresTriggers(o.state, strict, actions[1..]);
    }
  }

  /** When the action keeps the event (it returns false, as for a reused
      event), every trigger performs it, nothing is reported, and the flags
      stay as they were. */
  lemma {:induction false} KeptEventFiresEveryTime(e: EventState, strict: bool, actions: seq<bool>)
    requires !e.cancelled && !e.cleared
    requires forall i :: 0 <= i < |actions| ==> !actions[i]
    ensures TriggerAll(e, strict, actions) == Run(e, [], |actions|)
    decreases |actions|
  {
    if actions != [] {
      KeptEventFiresEveryTime(e, strict, actions[1..]);
    }
  }

  /** However the actions answer, triggers only ever raise `cleared`, and
      they raise it exactly when the event was live and some action asked
      for it; `cancelled`, `reuse` and the location never change. */
  lemma {:induction false} TriggersOnlyClear(e: EventState, strict: bool, actions: seq<bool>)
    ensures TriggerAll(e, strict, actions).state.cleared <==>
              e.cleared || (!e.cancelled && exists i :: 0 <= i < |actions| && actions[i])
    ensures TriggerAll(e, strict, actions).state == e.(cleared := TriggerAll(e, strict, actions).state.cleared)
    decreases |actions|
  {
    if actions != [] {
      var o := Trigger(e, strict, actions[0]);
      TriggersOnlyClear(o.state, strict, actions[1..]);
      if exists i :: 0 <= i < |actions[1..]| && actions[1..][i] {
        var i :| 0 <= i < |actions[1..]| && actions[1..][i];
        assert actions[i + 1];
      }
      if exists i :: 0 <= i < |actions| && actions[i] {
        var i :| 0 <= i < |actions| && actions[i];
        if i > 0 {
          assert actions[1..][i - 1];
        }
      }
    }
  }

  /** The flag block of an event, updated in place. */
  class Event {
    var loc: string
    var cancelled: bool
    var cleared: bool
    var reuse: bool
    var cancelNotifier: object?   // `_cancel_notifier`

    function State(): EventState
      reads this
    {
      EventState(loc, cancelled, cleared, reuse)
    }

    /** `_event_cancel_base (loc)`. */
    constructor (l: string)
      ensures State() == Fresh(l) && cancelNotifier == null
    {
      loc, cancelled, cleared, reuse := l, false, false, false;
      cancelNotifier := null;
    }

    /** `reinit (loc)`: back to the freshly constructed flags under the new
        location; the cancel notifier is kept. */
    method Reinit(l: string)
      modifies this
      ensures State() == Fresh(l)
      ensures cancelNotifier == old(cancelNotifier)
    {
      loc, cancelled, cleared, reuse := l, false, false, false;
    }

    method SetCancelNotifier(n: object?)
      modifies this
      ensures cancelNotifier == n && State() == old(State())
    {
      cancelNotifier := n;
    }

    method SetReuse(b: bool)
      modifies this
      ensures State() == old(State()).(reuse := b)
      ensures cancelNotifier == old(cancelNotifier)
    {
      reuse := b;
    }

    function GetReuse(): (r: bool)
      reads this
      ensures r == State().reuse
    {
      reuse
    }

    /** `can_trigger`: answers from the flags, reporting through `env`. */
    method CanTrigger(strict: bool, env: Env) returns (ok: bool)
      modifies env
      ensures ok <==> !cancelled && !cleared
      ensures ok == Check(State(), strict).ok
      ensures env.errors == old(env.errors) + Listed(Check(State(), strict).report)
      ensures env.scheduled == old(env.scheduled) && env.invoked == old(env.invoked)
    {
      ok := false;
      if cancelled {
        if strict {
          env.Error(loc, CancelledMessage);
        }
      } else if cleared {
        env.Error(loc, ClearedMessage);
      } else {
        ok := true;
      }
    }

    /** `trigger_no_assign`: if the event may fire, performs the action,
        whose answer `action` decides whether the event is now cleared;
        `acted` tells whether `perform_action` was called. */
    method TriggerNoAssign(strict: bool, action: bool, env: Env) returns (acted: bool)
      modifies this, env
      ensures acted == Trigger(old(State()), strict, action).acted
      ensures acted <==> old(!cancelled && !cleared)
      ensures State() == Trigger(old(State()), strict, action).state
      ensures env.errors == old(env.errors) + Listed(Trigger(old(State()), strict, action).report)
      ensures env.scheduled == old(env.scheduled) && env.invoked == old(env.invoked)
      ensures cancelNotifier == old(cancelNotifier)
    {
      acted := CanTrigger(strict, env);
      if acted {
        if action {
          cleared := true;
        }
      }
    }
  }
}
