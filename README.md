# Tame lifetime core, modelled in Dafny

This project models the lifetime and synchronisation layer of sfslite's tame
continuation runtime, and proves properties of that model. The layer covers:

- **Mortality and weak reference counting** (`mortal_t`, `weak_refcounted_t`,
  `weak_ref_t`). An object carries two shared flags, `destroyed` and `dead`.
  It also carries a manually managed weak count whose one-shot finalize
  callback is *scheduled* when the count reaches zero. A weak reference reads
  the shared `destroyed` flag and hands out its pointer only while that flag
  is down.
- **Closures** (`closure_t`). A closure is a weak-counted frame numbered from a
  64-bit serial counter. It records its re-entry point, its call-exactly-once
  bookkeeping and the join groups associated with it.
- **Join groups** (`join_group_pointer_t`, `joiner_t`, `join_group_t`):
  - a count of outstanding calls, `n_out`;
  - a FIFO of values joined but not yet taken;
  - a one-shot waiter callback;
  - weak references to every closure launched under the group, registered
    once per closure id.

  `mark_dead` reports a leak when joins are left, then weakly decrefs every
  registered closure. A joiner reaches its group through a weak reference
  and reports when the group is gone.
- **Cancellable events** (`_event_cancel_base`). The `cancelled`, `cleared`
  and `reuse` flags decide whether a trigger reaches the event's action, and
  which error is reported otherwise.

Files:

| file | module | contents |
|---|---|---|
| `runtime.dfy` | `Runtime` | Callbacks, error reports and scheduled tasks; a shared `Flag` cell; `Env`, which logs every call to `tame_error`, to `delaycb` and to a callback invoked inline |
| `weak.dfy` | `Weak` | `Mortal`, the `Counter` value model of the weak count, the `WeakCounted` class, and the `WeakRef` datatype |
| `closure.dfy` | `Closures` | Unsigned conversions, the serial counter and the `Closure` class |
| `joinmodel.dfy` | `JoinModel` | The join group's bookkeeping as a state machine on values, runs of operations, and the truncated-key finding |
| `joingroup.dfy` | `JoinGroups` | The `JoinGroup`, `Joiner` and `JoinGroupHandle` classes. Each state change is proved equal to a `JoinModel` step |
| `event.dfy` | `Events` | The event flags as a value, runs of triggers, and the `Event` class |

The imperative classes are tied to pure models:

- Every method of `JoinGroups.JoinGroup` states its new `State()` as a
  `JoinModel` step of its old state. The run properties are proved once, in
  `JoinModel`: FIFO order, the joins-left count, the one-shot waiter and the
  exact registry.
- `Weak.WeakCounted.WeakDecref` is proved against `Weak.Decref`, which
  `Weak.RunWeak` iterates.
- `Events.Event.TriggerNoAssign` is proved against `Events.Trigger`, which
  `Events.TriggerAll` iterates.

The world outside the core becomes parameters and logs:

- `tame_strict_mode ()` is a `strict` parameter.
- The value returned by the virtual `perform_action` is an `action`
  parameter.
- `tame_error`, `delaycb (0, 0, ...)` and a direct callback call are appends to
  `Env.errors`, `Env.scheduled` and `Env.invoked`. Nothing scheduled is ever
  run by the model.
- The closure serial counter, a global, is passed as a `SerialCounter`
  object.

C++ inheritance becomes composition:

- `Closure` and `JoinGroup` each own a `const base: WeakCounted`.
- `WeakCounted` owns its `const mortal: Mortal`.

Two behaviours of the code shape the contracts:

- `join_group_pointer_t::join` clears the waiter `_join_cb` and then calls
  it synchronously (async/tame.h:370-374). The model records that call in
  `Env.invoked`. Only `joiner_t::join` (async/tame.h:432) and the weak
  finalize callback (async/tame.h:172) go through `delaycb`, and those land
  in `Env.scheduled`.
- `n_joins_left ()` is `_n_out + _pending.size ()` (async/tame.h:379).
  After two launched calls have both joined it is still 2, and it drops
  only as `pending` takes the values. `JoinModel.TwoJoinsQueueInOrder` and
  `JoinModel.TwoJoinsThreePolls` state this.

## Model

| member | source | states |
|---|---|---|
| Runtime.Env.Error | async/tame.h:291 | A call to `tame_error (loc, msg)` appends exactly that report to the error log and touches neither the schedule nor the inline-call log |
| Weak.Mortal.constructor | async/tame.h:114-117 | Both shared flags are new, distinct cells, initially false |
| Weak.Mortal.Destroy | async/tame.h:119 | The destructor raises the shared `destroyed` cell |
| Weak.Mortal.MakeMortalRef | async/tame.h:124-125 | A mortal reference names the object and shares its two flag cells |
| Weak.Decref | async/tame.h:165-174 | From a positive count: the count drops by one and never below zero. At zero the callback is disarmed, and it is handed over exactly when it was armed; above zero nothing fires and the callback stays |
| Weak.FinalizeAtMostOncePerArming | async/tame.h:164-175 | Over any run of increfs, decrefs and callback installs, the callbacks fired plus the one still armed never exceed the one armed at the start plus the installs |
| Weak.FinalizeFiresAtMostOnce | async/tame.h:165-174 | With no new install, a run fires at most one callback however often the count returns to zero, and only the one armed at the start |
| Weak.FiredOnlyArmedCallbacks | async/tame.h:169-172 | With no new install, every fired callback is the initially armed one, and any callback still armed is that one |
| Weak.RunWeakCompletesIffNeverNegative | async/tame.h:164-167 | A run from a non-negative count passes every decref assertion iff no prefix drives the count below zero; it then ends at the start count plus the net balance |
| Weak.WeakCounted.constructor | async/tame.h:139-141 | A weak-counted object starts at count 1, no callback, and fresh flags that are down. Its `destroyed` and `dead` cells are distinct |
| Weak.WeakCounted.WeakIncref | async/tame.h:164 | The count goes up by one; the callback is kept |
| Weak.WeakCounted.WeakDecref | async/tame.h:165-174 | The new counter is `Decref` of the old one, and the scheduler receives exactly the callback `Decref` hands over. Nothing is reported or called inline |
| Weak.WeakCounted.SetWeakFinalizeCb | async/tame.h:175 | Installs or clears the callback; the count is kept |
| Weak.CountAfter | async/tame.h:203 | A weak decref through a reference is `Decref` on a live target and leaves a destroyed target's count as it was |
| Weak.FiredBy | async/tame.h:203 | Through a reference, the callback scheduled is `Decref`'s on a live target. Only a live target dropping from one fires |
| Weak.WeakRef.Pointer | async/tame.h:201 | The pointer is absent exactly when the shared `destroyed` cell is set, and is the target otherwise |
| Weak.WeakRef.WeakIncref | async/tame.h:204 | Increfs a live target; does nothing to a destroyed one |
| Weak.WeakRef.WeakDecref | async/tame.h:203 | The target's counter becomes `CountAfter` and the schedule gains `FiredBy`, both judged by the target's liveness |
| Closures.ToUInt | async/tame.h:240 | Storing an `int` into a `u_int` keeps it below 2^32, congruent to the input, and unchanged when it already fits |
| Closures.NextSerial | async/tame.h:219 | `++closure_serial_number` on a 64-bit counter adds one, wrapping to 0 only after 2^64-1 |
| Closures.SerialsIncrease | async/tame.h:230 | Until the counter wraps, successive closures get ids start+1, start+2, …, strictly increasing and hence distinct |
| Closures.SerialCounter.Next | async/tame.h:230 | Advances the counter by `NextSerial` and returns the new value |
| Closures.Closure.constructor | async/tame.h:225-231 | A closure takes the next serial id, starts with weak count 1, re-entry point 0, zero cceoc count, the given `has_cceoc`, and no join groups. Its `destroyed` and `dead` cells are distinct |
| Closures.Closure.SetJumpto | async/tame.h:240 | The re-entry point becomes the `u_int` image of the argument; nothing else changes |
| Closures.Closure.Jumpto | async/tame.h:241 | Reads back the stored re-entry point |
| Closures.Closure.IncCceocCount | async/tame.h:244 | The cceoc count goes up by one; nothing else changes |
| Closures.Closure.SetHasCceoc | async/tame.h:245 | Sets the flag; nothing else changes |
| Closures.Closure.AssociateJoinGroup | async/tame.h:255 | Appends the group's mortal reference and wrapper token to the closure's join groups |
| JoinModel.Initial | async/tame.h:306-308 | A new group has no joins left, needs no join, and an empty, exact registry |
| JoinModel.NeedJoin | async/tame.h:380 | A join is needed iff a call is out or a value is pending |
| JoinModel.AssociateClosure | async/tame.h:332-352 | Registration leaves the counts, queue and waiter alone. The id ends up known, and a known id changes nothing |
| JoinModel.AddJoin | async/tame.h:363 | Adds one join left, after which a join is needed |
| JoinModel.RemoveJoin | async/tame.h:364 | With a call out, removes exactly one join left |
| JoinModel.LaunchOne | async/tame.h:356-361 | One more call out, with the queue and waiter kept; without a closure the registry is untouched |
| JoinModel.SetJoinCb | async/tame.h:354 | Installs the given waiter, or clears it with `None`, replacing any previous one. Counts, queue and registry are kept, so joins left are unchanged |
| JoinModel.Join | async/tame.h:366-375 | One call comes back: the value goes to the back of the queue and joins left are unchanged. The waiter that was set is the one fired, and the waiter is cleared |
| JoinModel.Pending | async/tame.h:385-393 | An empty queue yields nothing and changes nothing. Otherwise the oldest value is returned and removed. Counts, waiter and registry are kept either way |
| JoinModel.StepFifo | async/tame.h:366-393 | For one operation, the values handed out followed by the new queue equal the old queue followed by the value joined |
| JoinModel.StepCounts | async/tame.h:363-379 | For one operation, joins left plus values taken move by the operation's count. Waiters fired plus waiters still set never exceed those set before plus those installed |
| JoinModel.StepRegistry | async/tame.h:332-361 | One operation keeps the registry exact and adds exactly the closure it launches |
| JoinModel.ExecIsFifo | async/tame.h:366-393 | Over any run, the values handed out followed by the final queue are the initial queue followed by every joined value, in join order |
| JoinModel.PendingPreservesJoinOrder | async/tame.h:385-393 | From a new group, `pending` yields a prefix of the joined values in join order, and all of them once the queue is empty |
| JoinModel.ExecJoinsLeft | async/tame.h:377-380 | Over any run, joins left plus values taken equal the start value plus launches and `add_join`s minus `remove_join`s. `join` alone never changes it |
| JoinModel.JoinCbOneShot | async/tame.h:370-374 | Over any run, waiters called plus the waiter still set never exceed the one set at the start plus the `set_join_cb` installs |
| JoinModel.AssociateKeepsRegistry | async/tame.h:334-340 | Registration keeps the dedup set equal to the registered ids with no id listed twice. The id ends up listed, appended when new |
| JoinModel.ExecKeepsRegistry | async/tame.h:332-352 | Over any run the registry stays exact, and the dedup set grows by exactly the closures launched |
| JoinModel.ExecAppend | async/tame.h:356-393 | Running two sequences of operations one after the other is running their concatenation, with outputs concatenated |
| JoinModel.TwoJoinsQueueInOrder | async/tame.h:366-379 | Two launches and two joins leave nothing out, both values queued in join order, and two joins left |
| JoinModel.ThreePollsDrain | async/tame.h:385-393 | With two values queued, three polls return them in order, the third returns nothing, and the queue is empty |
| JoinModel.TwoJoinsThreePolls | async/tame.h:366-393 | After two launches, two joins and three polls, the values come back in join order and no joins are left |
| JoinModel.SecondJoinCallsNothing | async/tame.h:370-374 | A waiter set before two joins is called once, by the first, and is then cleared |
| JoinModel.BhashKey | async/tame.h:412 | The dedup key is the id reduced to 32 bits, equal to it below 2^32 |
| JoinModel.AssociateClosureAsWritten | async/tame.h:335-337 | As written, registration records the truncated key; a key already present changes nothing |
| JoinModel.TruncatedKeySkipsNewClosure | async/tame.h:335-337 | As written, closure 2^32+1 after closure 1 is never registered; keying on the full id registers both |
| JoinGroups.NatToString | async/tame.h:322 | The unsigned half of `%d`: a non-empty string of decimal digits; `NatToStringValue` proves it canonical and denoting the number |
| JoinGroups.IntToString | async/tame.h:322 | `%d`: a non-empty string ending in a digit. `IntToStringValue` and `DecimalValueToString` prove it a canonical decimal (a '-' only before a non-zero magnitude) that denotes the number, one-to-one |
| JoinGroups.NatToStringValue | async/tame.h:322 | The digits printed for a natural number are canonical and denote that number |
| JoinGroups.DigitsValueToString | async/tame.h:322 | Canonical digits are exactly how their value prints |
| JoinGroups.IntToStringValue | async/tame.h:322 | `%d` of any integer is a decimal that denotes it |
| JoinGroups.DecimalValueToString | async/tame.h:322 | Every decimal `%d` may print is how its value prints, so the printing is one-to-one |
| JoinGroups.LeakLocation | async/tame.h:321-323 | The tag is "(unknown)" iff the file is null or the line is zero. Otherwise it is the file name, a colon, and the line printed as `%d` prints it: canonical decimal digits, with a '-' before a negative line, denoting exactly `lineno` |
| JoinGroups.DecrefAt | async/tame.h:329 | One pass of the `mark_dead` loop, `_closures[i].weak_decref ()`: that entry's count becomes `CountAfter` of its prior count and liveness, every other entry's count and every entry's liveness are kept, and the schedule gains exactly `FiredBy`'s callback |
| JoinGroups.DecrefAll | async/tame.h:328-329 | Weakly decrefing every registered closure gives each one its `CountAfter` state. The schedule gains their finalize callbacks in registration order, and nothing else is logged |
| JoinGroups.JoinGroup.constructor | async/tame.h:306-308 | A new group is in the initial model state, with the creation site, no closures, and weak count 1. Its `destroyed` and `dead` cells are distinct |
| JoinGroups.JoinGroup.NPending | async/tame.h:377 | The number of queued values |
| JoinGroups.JoinGroup.NOut | async/tame.h:378 | The number of calls out |
| JoinGroups.JoinGroup.NJoinsLeft | async/tame.h:379 | Calls out plus values queued, zero iff both are |
| JoinGroups.JoinGroup.NeedJoin | async/tame.h:380 | True iff joins are left, agreeing with the model |
| JoinGroups.JoinGroup.SetJoinCb | async/tame.h:354 | The model's `SetJoinCb` step |
| JoinGroups.JoinGroup.AssociateClosure | async/tame.h:332-352 | The model's `AssociateClosure` step, keeping the group valid. A new id appends a weak reference to the closure and adds its count to the watched set. It increfs a live closure and records the group on the closure, whose other fields are kept. A known id changes neither the group's closures nor the closure |
| JoinGroups.JoinGroup.AddJoin | async/tame.h:363 | The model's `AddJoin` step |
| JoinGroups.JoinGroup.RemoveJoin | async/tame.h:364 | The model's `RemoveJoin` step, with a call out |
| JoinGroups.JoinGroup.LaunchOne | async/tame.h:356-361 | The model's `LaunchOne` step. A new closure gets everything `AssociateClosure` promises: the appended weak reference, the watched count, the incref of a live closure and the recorded group. Without a closure, or with a known id, the closures and the closure are untouched |
| JoinGroups.JoinGroup.Join | async/tame.h:366-375 | The model's `Join` step. The waiter it fires is called inline, and nothing is scheduled or reported |
| JoinGroups.JoinGroup.Pending | async/tame.h:385-393 | Returns the oldest value iff one is queued and otherwise leaves the output as given; the model's `Pending` step |
| JoinGroups.JoinGroup.ReleaseClosures | async/tame.h:327-329 | Every registered closure gets its `CountAfter` state, judged by its liveness on entry, and the schedule gains their callbacks in order |
| JoinGroups.JoinGroup.Kill | async/tame.h:316-329 | Raises `dead` and reports one leak tagged `LeakLocation` iff joins were left, then releases every registered closure as `ReleaseClosures` does |
| JoinGroups.JoinGroup.MarkDead | async/tame.h:312-330 | Idempotent: a group already dead changes nothing and reports nothing, whatever its closures' counts. Otherwise it does what `Kill` does |
| JoinGroups.JoinGroup.Destroy | async/tame.h:310 | `mark_dead`, then `destroyed` is raised. A group not yet dead reports its leak and releases every registered closure: a live one is weakly decref'd and its finalize callback scheduled, judged by its liveness on entry |
| JoinGroups.Joiner.constructor | async/tame.h:427-428 | A joiner holds a weak reference to the group and its location |
| JoinGroups.Joiner.Join | async/tame.h:430-433 | Never delivers inline: exactly one `join_cb` is scheduled for the value |
| JoinGroups.Joiner.JoinCb | async/tame.h:442-449 | Runs the oldest scheduled delivery: the value is the first one `Join` bound, and it leaves the in-flight list. A destroyed group gets a "join_group went out of scope" report at the joiner's location and is left alone. A live group receives the model's `Join` step on that value and keeps its registered closures |
| JoinGroups.JoinGroupHandle.constructor | async/tame.h:461-462 | A handle made from a site owns a new group in the initial state. Its `destroyed` and `dead` cells are distinct |
| JoinGroups.JoinGroupHandle.FromPointer | async/tame.h:463 | A handle made from a pointer shares that group |
| JoinGroups.JoinGroupHandle.AddJoin | async/tame.h:477 | Forwards: the model's `AddJoin` step on the shared group |
| JoinGroups.JoinGroupHandle.RemoveJoin | async/tame.h:483 | Forwards: the model's `RemoveJoin` step |
| JoinGroups.JoinGroupHandle.NPending | async/tame.h:489 | Forwards: the queue length |
| JoinGroups.JoinGroupHandle.NOut | async/tame.h:494 | Forwards: the calls out |
| JoinGroups.JoinGroupHandle.NJoinsLeft | async/tame.h:502 | Forwards: the model's joins left |
| JoinGroups.JoinGroupHandle.NeedJoin | async/tame.h:507 | Forwards: the model's need-join |
| JoinGroups.JoinGroupHandle.Pending | async/tame.h:515-516 | Forwards: the oldest value iff one is queued; the model's `Pending` step |
| JoinGroups.JoinGroupHandle.SetJoinCb | async/tame.h:527 | Forwards: the model's `SetJoinCb` step |
| JoinGroups.JoinGroupHandle.LaunchOne | async/tame.h:528-529 | Forwards with this handle as the wrapper token the closure records. The shared group takes the model's `LaunchOne` step, and a new closure gets everything `JoinGroup.LaunchOne` promises |
| JoinGroups.JoinGroupHandle.MakeJoiner | async/tame.h:535-536 | A new joiner weakly bound to the shared group |
| JoinGroups.LeakReportedOnce | async/tame.h:310-325 | A group with one unjoined launch is marked dead, then destroyed, whose destructor marks it dead again. It reports exactly one leak, tagged "file:line" |
| JoinGroups.ClosureReleasedOnDestroy | async/tame.h:310-329 | Destroying a group with one unjoined launch reports one leak tagged "file:line", schedules nothing, and returns the launched closure's weak count from 2 to 1 |
| JoinGroups.JoinerOutlivesGroup | async/tame.h:430-449 | A joiner used after its group is destroyed schedules its delivery, and then reports "join_group went out of scope" instead of delivering |
| Events.Fresh | libtame/tame_event.h:24-28 | A new or reinitialised event has the given location and all three flags down |
| Events.Check | libtame/tame_event.h:49-61 | The event may fire iff neither cancelled nor cleared. Cancelled takes precedence and reports "…after it was cancelled" only in strict mode. Cleared alone always reports "…after it was cleared". A firing event reports nothing |
| Events.Trigger | libtame/tame_event.h:63-69 | The action is performed iff `Check` allows it, and the report is `Check`'s. `cleared` is raised exactly when the performed action returns true. `cancelled`, `reuse` and the location never change; an event that does not fire is left as it was |
| Events.SettledIgnoresTriggers | libtame/tame_event.h:49-69 | A cancelled or cleared event performs no action and never changes over any run of triggers. Each trigger reports, except a cancelled event outside strict mode, which stays silent |
| Events.ClearingEventFiresOnce | libtame/tame_event.h:63-69 | When the action clears the event, a live event performs it exactly once, ends cleared, and reports "cleared" for every later trigger |
| Events.KeptEventFiresEveryTime | libtame/tame_event.h:63-69 | When the action keeps the event, every trigger performs it, nothing is reported and the flags never change |
| Events.TriggersOnlyClear | libtame/tame_event.h:63-69 | Over any run, the only flag that can change is `cleared`. It ends up set iff it was set or the event was live and some action returned true |
| Events.Event.constructor | libtame/tame_event.h:24-29 | A new event is `Fresh` at its location, with no cancel notifier |
| Events.Event.Reinit | libtame/tame_event.h:33-39 | Back to `Fresh` under the new location; the notifier is kept |
| Events.Event.SetCancelNotifier | libtame/tame_event.h:41 | Stores the notifier; the flags are kept |
| Events.Event.SetReuse | libtame/tame_event.h:46 | Sets `reuse` only |
| Events.Event.GetReuse | libtame/tame_event.h:47 | Returns the last value `SetReuse` stored |
| Events.Event.CanTrigger | libtame/tame_event.h:49-61 | Returns true iff neither cancelled nor cleared. It logs exactly `Check`'s report and changes no flag |
| Events.Event.TriggerNoAssign | libtame/tame_event.h:63-69 | Returns whether `perform_action` was called, which happens iff the event was neither cancelled nor cleared: `Trigger`'s `acted`. The new flags and the report logged are `Trigger`'s; nothing is scheduled and no callback is logged |

## Left out

- Running scheduled work: `delaycb` only records the task, and the event loop is not modelled.
- Strong reference counting (`refcount`, `ptr`, `ref`, `mkref`): objects are plain heap objects, and their destructors are explicit `Destroy` calls.
- `g_stats->did_mkevent ()` is a statistics side effect with no bearing on the flags.
- `closure_t::enforce_cceoc`, `end_of_scope_checks`, `kill_join_groups` and `is_onstack`: their bodies are not part of this model. Only the fields they use are modelled.
- `mortal_ref_t::mark_dead` and the body of `closure_t::associate_join_group` are not part of this model. The association is modelled as appending to the closure's `_join_groups`.
- `_event_cancel_base::cancel`, `clear`, `finish`, `report_leaks`, and the virtuals `perform_action` / `clear_action`: not part of this model. The answer of `perform_action` is the `action` parameter.
- `_event_cancel_base::loc ()` and `cancelled ()` are plain field reads, visible through `Events.Event.State`.
- `value_set_t`, `to_vs`, `pointer_set*_t`, `generic_wrapper_t`, `weak_refcounted_t::pointer` and `make_weak_ref`, and the `mkevent` macros: template plumbing. The value set is the type parameter `V`, and a weak reference is built directly as `WeakRef(c, c.base)`.
- The `void *jgwp` wrapper pointer is an opaque `object?` token, and the `const char *` file name is `Option<string>`, with `None` for NULL.
- Closures.Closure.IncCceocCount: the `int` overflow of `_cceoc_count` is not modelled, because the count is unbounded here.
- Closures.SerialsIncrease: stated only until the 64-bit counter wraps. After 2^64 closures, ids repeat.
- JoinModel.Join: requires a call out. The source decrements the unsigned `_n_out` unchecked, which wraps to 2^32-1; that misuse is not modelled.
- JoinGroups.JoinGroup.Join: the same precondition as `JoinModel.Join`, for the same reason.
- JoinModel.AddJoin: `_n_out` is a `u_int` whose wrap after 2^32 launches is not modelled; the count is unbounded.
- JoinModel.RemoveJoin: the assertion `_n_out-- > 0` (async/tame.h:364) is a precondition. The decrement sits inside the assertion, so with the assertion compiled out the decrement goes with it and `remove_join` does nothing; that build is not modelled.
- Weak.WeakCounted.WeakDecref: the assertion `--_refcnt >= 0` (async/tame.h:167) is a precondition. The decrement sits inside the assertion, so with the assertion compiled out the decrement goes with it: the count never drops and the finalize callback never fires. That build is not modelled.
- JoinGroups.JoinGroup.MarkDead: a group not yet dead requires every live registered closure to have a positive weak count, which is the assertion in the `weak_decref` it calls. A group already dead requires nothing of its closures.
- JoinGroups.JoinGroup.Destroy: the same requirement as `MarkDead`, for the same reason.
- JoinGroups.JoinGroup.AssociateClosure: keys the dedup set on the full 64-bit closure id, the corrected behaviour under "## Findings". The 32-bit key as written is `JoinModel.AssociateClosureAsWritten`.
- JoinGroups.JoinGroup.LaunchOne: registers through `AssociateClosure`, so it keys on the full id too.
- JoinGroups.JoinGroupHandle.LaunchOne: forwards to `JoinGroup.LaunchOne`, so it keys on the full id too.
- Weak.WeakCounted.WeakIncref: the `int _refcnt` (async/tame.h:179) is unbounded here, so its overflow past 2^31-1 is not modelled.
- Weak.WeakRef.WeakIncref: forwards to `WeakCounted.WeakIncref`, with the same unbounded count.
- JoinGroups.JoinGroup.AssociateClosure: requires that a closure with a new id is not already watched through another entry. This is a frame fact, not a rule of the source: distinct C++ closures own distinct weak counts.
- JoinGroups.JoinGroup.Kill raises `dead` after reporting and releasing, not before. The flag is the group's own cell and is read by neither step, so the order is not observable.
- Concurrency: none exists, since the runtime is single-threaded and cooperative.

## Findings

| source | as written | input that shows it | evidently intended | confidence | as-written member | corrected member |
|---|---|---|---|---|---|---|
| async/tame.h:335-337 | `associate_closure` dedups on `_closure_bhash`, a `bhash<u_int>`, so a `u_int64_t` id is truncated to 32 bits | closure 1 registered, then closure 2^32+1 (the 4294967297th closure), whose truncated key is 1: it is taken as already registered, so it is neither weakly incref'd nor told about the group | key the dedup set on the full 64-bit id, so that each distinct closure is registered exactly once | not executed | JoinModel.AssociateClosureAsWritten | JoinModel.AssociateClosure |
