/** The world the tame runtime talks to: shared boolean cells, opaque
    callbacks, and the three collaborators it reports to (the error sink
    `tame_error`, the scheduler `delaycb (0, 0, c)` and direct callback
    invocation). None of the collaborators runs anything here: each call is
    recorded in a log that the contracts talk about. */
module Runtime {

  datatype Option<T> = None | Some(value: T)

  /** An opaque zero-argument callback (`cbv`); only its identity matters. */
  datatype Callback = Callback(id: nat)

  /** One call to `tame_error (loc, msg)`. */
  datatype Report = Report(loc: string, msg: string)

  /** One call handed to the event loop with `delaycb (0, 0, ...)`. */
  datatype Task =
    | Call(cb: Callback)         // a stored `cbv` scheduled as is
    | JoinerCb(joiner: object)   // `wrap (mkref (joiner), &joiner_t::join_cb, w)`

  /** The sequence of tasks a possibly-fired callback contributes. */
  function Scheduled(fired: Option<Callback>): (ts: seq<Task>)
    ensures fired.None? ==> ts == []
    ensures fired.Some? ==> ts == [Call(fired.value)]
  {
    match fired
    case None => []
    case Some(cb) => [Call(cb)]
  }

  /** The elements an optional value contributes to a log. */
  function Listed<T>(o: Option<T>): (s: seq<T>)
    ensures o.None? ==> s == []
    ensures o.Some? ==> s == [o.value]
  {
    match o
    case None => []
    case Some(x) => [x]
  }

  /** Sequence concatenation regroups freely. */
  lemma AppendAssoc<T>(a: seq<T>, b: seq<T>, c: seq<T>)
    ensures a + b + c == a + (b + c)
  {
  }

  /** A `ptr<bool>`: a heap cell several observers can share. */
  class Flag {
    var b: bool

    constructor (init: bool)
      ensures b == init
    {
      b := init;
    }
  }

  /** Everything the core hands to code outside it. */
  class Env {
    var errors: seq<Report>      // calls to `tame_error`
    var scheduled: seq<Task>     // calls to `delaycb (0, 0, ...)`, in order
    var invoked: seq<Callback>   // callbacks called synchronously, in order

    constructor ()
      ensures errors == [] && scheduled == [] && invoked == []
    {
      errors, scheduled, invoked := [], [], [];
    }

    method Error(loc: string, msg: string)
      modifies this
      ensures errors == old(errors) + [Report(loc, msg)]
      ensures scheduled == old(scheduled) && invoked == old(invoked)
    {
      errors := errors + [Report(loc, msg)];
    }
  }
}
