/**
  The Neo4j transaction coordinator as a state machine over values. The state
  is the field tx together with the log of calls made on the collaborators;
  each entry point of the coordinator is a function from the state before the
  call to the state after it and the way the call ends. The imperative classes
  in module Coordinator are proved to compute exactly these functions.
*/
module Bridge {
  import opened Collaborators

  /** tx: the open Neo4j transaction (Java null is None); calls: the calls made on collaborators, oldest first (a beginTx() that throws leaves no entry). */
  datatype State = State(tx: Option<Handle>, calls: seq<Call>)

  /** The state after an entry point, and whether that entry point returned or threw. */
  datatype Step = Step(state: State, out: Outcome)

  const Initial: State := State(None, [])

  function Last(calls: seq<Call>): Option<Call>
  {
    if calls == [] then None else Some(calls[|calls| - 1])
  }

  /** The Neo4j transaction a log leaves open: the last one begun and not closed since. */
  function OpenHandle(calls: seq<Call>): Option<Handle>
    decreases |calls|
  {
    if calls == [] then None
    else
      match calls[|calls| - 1]
      case BeginTx(h) => Some(h)
      case CloseTx(_) => None
      case _ => OpenHandle(calls[..|calls| - 1])
  }

  /**
    Whether call c may follow a log whose open transaction is open and whose
    last call is previous: a transaction is begun only when none is open, is
    marked and closed only while it is the open one, is closed only right
    after it was marked, and has its synchronization registered only right
    after it was begun.
  */
  predicate Allowed(open: Option<Handle>, previous: Option<Call>, c: Call)
  {
    match c
    case BeginTx(_) => open.None?
    case MarkSuccess(h) => open == Some(h)
    case MarkFailure(h) => open == Some(h)
    case CloseTx(h) => open == Some(h) && (previous == Some(MarkSuccess(h)) || previous == Some(MarkFailure(h)))
    case RegisterSynchronization(h) => previous == Some(BeginTx(h))
    case _ => true
  }

  /** Every call of the log is allowed where it stands. */
  predicate WellFormed(calls: seq<Call>)
    decreases |calls|
  {
    calls == [] ||
    (var before := calls[..|calls| - 1];
     WellFormed(before) && Allowed(OpenHandle(before), Last(before), calls[|calls| - 1]))
  }

  /** The coordinator's invariant: the log is well formed and tx is the transaction it leaves open. */
  predicate Consistent(s: State)
  {
    WellFormed(s.calls) && OpenHandle(s.calls) == s.tx
  }

  /** How many Neo4j transactions a log begins, closes and registers a synchronization for. */
  function Begun(calls: seq<Call>): nat
    decreases |calls|
  {
    if calls == [] then 0 else Begun(calls[..|calls| - 1]) + if calls[|calls| - 1].BeginTx? then 1 else 0
  }

  function Closed(calls: seq<Call>): nat
    decreases |calls|
  {
    if calls == [] then 0 else Closed(calls[..|calls| - 1]) + if calls[|calls| - 1].CloseTx? then 1 else 0
  }

  function Registered(calls: seq<Call>): nat
    decreases |calls|
  {
    if calls == [] then 0 else Registered(calls[..|calls| - 1]) + if calls[|calls| - 1].RegisterSynchronization? then 1 else 0
  }

  /** Records call c in the log. */
  function Emit(s: State, c: Call): (r: State)
    ensures r.tx == s.tx && r.calls == s.calls + [c] && Last(r.calls) == Some(c)
    ensures OpenHandle(r.calls) == match c case BeginTx(h) => Some(h) case CloseTx(_) => None case _ => OpenHandle(s.calls)
    ensures WellFormed(r.calls) <==> WellFormed(s.calls) && Allowed(OpenHandle(s.calls), Last(s.calls), c)
    ensures Begun(r.calls) == Begun(s.calls) + if c.BeginTx? then 1 else 0
    ensures Closed(r.calls) == Closed(s.calls) + if c.CloseTx? then 1 else 0
    ensures Registered(r.calls) == Registered(s.calls) + if c.RegisterSynchronization? then 1 else 0
  {
    var calls := s.calls + [c];
    assert calls[..|calls| - 1] == s.calls;
    State(s.tx, calls)
  }

  /**
    close(): tx.close(), then tx := null in the finally block. Whether or not
    tx.close() throws, no transaction is left open, and what tx.close() threw
    is what close() throws.
  */
  function Close(s: State, close: Outcome): (r: Step)
    requires s.tx.Some?
    ensures r.state.tx == None && r.out == close
    ensures r.state.calls == s.calls + [CloseTx(s.tx.value)]
    ensures Closed(r.state.calls) == Closed(s.calls) + 1
    ensures var h := s.tx.value;
            Consistent(s) && (Last(s.calls) == Some(MarkSuccess(h)) || Last(s.calls) == Some(MarkFailure(h)))
            ==> Consistent(r.state)
  {
    Step(Emit(s, CloseTx(s.tx.value)).(tx := None), close)
  }

  /**
    success(): when a transaction is open, tx.success() and then close().
    If tx.success() throws, close() is not reached and tx stays open.
  */
  function Success(s: State, n: NativeOutcomes): (r: Step)
    ensures s.tx.None? ==> r == Step(s, Ok)
    ensures s.tx.Some? ==>
              r.state.calls == s.calls + [MarkSuccess(s.tx.value)] + (if n.markSuccess.Ok? then [CloseTx(s.tx.value)] else [])
    ensures s.tx.Some? ==> (r.state.tx.None? <==> n.markSuccess.Ok?)
    ensures r.state.tx.Some? ==> r.state.tx == s.tx
    ensures s.tx.Some? ==> r.out == if n.markSuccess.Err? then n.markSuccess else n.close
    ensures Consistent(s) ==> Consistent(r.state)
  {
    if s.tx.None? then Step(s, Ok)
    else
      var marked := Emit(s, MarkSuccess(s.tx.value));
      if n.markSuccess.Err? then Step(marked, n.markSuccess) else Close(marked, n.close)
  }

  /**
    failure(): when a transaction is open, tx.failure() and then close().
    If tx.failure() throws, close() is not reached and tx stays open.
  */
  function Failure(s: State, n: NativeOutcomes): (r: Step)
    ensures s.tx.None? ==> r == Step(s, Ok)
    ensures s.tx.Some? ==>
              r.state.calls == s.calls + [MarkFailure(s.tx.value)] + (if n.markFailure.Ok? then [CloseTx(s.tx.value)] else [])
    ensures s.tx.Some? ==> (r.state.tx.None? <==> n.markFailure.Ok?)
    ensures r.state.tx.Some? ==> r.state.tx == s.tx
    ensures s.tx.Some? ==> r.out == if n.markFailure.Err? then n.markFailure else n.close
    ensures Consistent(s) ==> Consistent(r.state)
  {
    if s.tx.None? then Step(s, Ok)
    else
      var marked := Emit(s, MarkFailure(s.tx.value));
      if n.markFailure.Err? then Step(marked, n.markFailure) else Close(marked, n.close)
  }

  /**
    join(): begins a Neo4j transaction and registers one synchronization for
    it exactly when none is open, the wrapped coordinator is active and its
    builder is JTA; otherwise it changes nothing. If beginTx() throws, nothing
    changes; if the registration throws, the new transaction stays open.
  */
  function Join(s: State, active: bool, jta: bool, opening: Opening, register: Outcome): (r: Step)
    ensures r.state.tx != s.tx <==> s.tx.None? && active && jta && opening.Opened?
    ensures !(s.tx.None? && active && jta && opening.Opened?) ==> r.state == s
    ensures !(s.tx.None? && active && jta) ==> r.out == Ok
    ensures opening.OpenFailed? && s.tx.None? && active && jta ==> r.out == Err(opening.error)
    ensures r.state.tx != s.tx ==>
              r.state.tx == Some(opening.handle) && r.out == register &&
              r.state.calls == s.calls + [BeginTx(opening.handle), RegisterSynchronization(opening.handle)]
    ensures Consistent(s) ==> Consistent(r.state)
  {
    if s.tx.None? && active && jta then
      match opening
      case OpenFailed(e) => Step(s, Err(e))
      case Opened(h) =>
        var begun := Emit(s, BeginTx(h)).(tx := Some(h));
        Step(Emit(begun, RegisterSynchronization(h)), register)
    else Step(s, Ok)
  }

  /** explicitJoin(): super.explicitJoin(), then join() unless it threw. */
  function ExplicitJoin(s: State, delegate: Outcome, active: bool, jta: bool, opening: Opening, register: Outcome): (r: Step)
    ensures delegate.Err? ==> r == Step(Emit(s, SuperExplicitJoin), delegate)
    ensures delegate.Ok? ==> r == Join(Emit(s, SuperExplicitJoin), active, jta, opening, register)
    ensures Consistent(s) ==> Consistent(r.state)
  {
    var forwarded := Emit(s, SuperExplicitJoin);
    if delegate.Err? then Step(forwarded, delegate) else Join(forwarded, active, jta, opening, register)
  }

  /** pulse(): super.pulse(), then join() unless it threw. */
  function Pulse(s: State, delegate: Outcome, active: bool, jta: bool, opening: Opening, register: Outcome): (r: Step)
    ensures delegate.Err? ==> r == Step(Emit(s, SuperPulse), delegate)
    ensures delegate.Ok? ==> r == Join(Emit(s, SuperPulse), active, jta, opening, register)
    ensures Consistent(s) ==> Consistent(r.state)
  {
    var forwarded := Emit(s, SuperPulse);
    if delegate.Err? then Step(forwarded, delegate) else Join(forwarded, active, jta, opening, register)
  }

  /** Neo4jSynchronization.beforeCompletion(): failure() when the status is MARKED_ROLLBACK, success() otherwise. */
  function BeforeCompletion(s: State, status: TransactionStatus, n: NativeOutcomes): (r: Step)
    ensures s.tx.None? ==> r == Step(s, Ok)
    ensures s.tx.Some? ==>
              |r.state.calls| > |s.calls| &&
              r.state.calls[|s.calls|] == if status == MarkedRollback then MarkFailure(s.tx.value) else MarkSuccess(s.tx.value)
    ensures r == if status == MarkedRollback then Failure(s, n) else Success(s, n)
    ensures Consistent(s) ==> Consistent(r.state)
  {
    if status == MarkedRollback then Failure(s, n) else Success(s, n)
  }

  /**
    Neo4jSynchronization.afterCompletion(status): nothing when no transaction
    is open; otherwise success() for STATUS_COMMITTED and failure() for any
    other status.
  */
  function AfterCompletion(s: State, status: int, n: NativeOutcomes): (r: Step)
    ensures s.tx.None? ==> r == Step(s, Ok)
    ensures s.tx.Some? ==>
              |r.state.calls| > |s.calls| &&
              r.state.calls[|s.calls|] == if status == STATUS_COMMITTED then MarkSuccess(s.tx.value) else MarkFailure(s.tx.value)
    ensures s.tx.Some? ==> r == if status == STATUS_COMMITTED then Success(s, n) else Failure(s, n)
    ensures Consistent(s) ==> Consistent(r.state)
  {
    if s.tx.Some? then
      if status != STATUS_COMMITTED then Failure(s, n) else Success(s, n)
    else Step(s, Ok)
  }

  /**
    Neo4jTransactionDriver.begin(): super.begin() first, then a Neo4j
    transaction is begun unless one is open. Neither activity nor JTA is
    checked and no synchronization is registered.
  */
  function DriverBegin(s: State, delegate: Outcome, opening: Opening): (r: Step)
    ensures |r.state.calls| > |s.calls| && r.state.calls[|s.calls|] == SuperBegin
    ensures r.state.tx != s.tx <==> delegate.Ok? && s.tx.None? && opening.Opened?
    ensures r.state.tx != s.tx ==>
              r.state == State(Some(opening.handle), s.calls + [SuperBegin, BeginTx(opening.handle)]) && r.out == Ok
    ensures r.state.tx == s.tx ==> r.state.calls == s.calls + [SuperBegin]
    ensures delegate.Err? ==> r.out == delegate
    ensures delegate.Ok? && s.tx.Some? ==> r.out == Ok
    ensures delegate.Ok? && s.tx.None? && opening.OpenFailed? ==> r.out == Err(opening.error)
    ensures Registered(r.state.calls) == Registered(s.calls)
    ensures Consistent(s) ==> Consistent(r.state)
  {
    var forwarded := Emit(s, SuperBegin);
    if delegate.Err? then Step(forwarded, delegate)
    else if forwarded.tx.Some? then Step(forwarded, Ok)
    else
      match opening
      case OpenFailed(e) => Step(forwarded, Err(e))
      case Opened(h) => Step(Emit(forwarded, BeginTx(h)).(tx := Some(h)), Ok)
  }

  /**
    Neo4jTransactionDriver.commit(): super.commit() then success(); if either
    throws, failure() is attempted, anything it throws is discarded, and the
    first exception is rethrown.
  */
  function DriverCommit(s: State, delegate: Outcome, n: NativeOutcomes): (r: Step)
    ensures delegate.Err? ==> r.out == delegate
    ensures r.out == if delegate.Err? then delegate else Success(Emit(s, SuperCommit), n).out
    ensures r.out.Ok? <==> delegate.Ok? && (s.tx.None? || (n.markSuccess.Ok? && n.close.Ok?))
    ensures r.state.tx.None? <==> s.tx.None? || (delegate.Ok? && n.markSuccess.Ok?) || n.markFailure.Ok?
    ensures s.tx.Some? && delegate.Err? ==>
              r.state.calls == s.calls + [SuperCommit, MarkFailure(s.tx.value)] + (if n.markFailure.Ok? then [CloseTx(s.tx.value)] else [])
    ensures s.tx.Some? && delegate.Ok? ==>
              var h := s.tx.value;
              r.state.calls == s.calls + [SuperCommit, MarkSuccess(h)] +
                               (if n.markSuccess.Ok? then [CloseTx(h)]
                                else [MarkFailure(h)] + (if n.markFailure.Ok? then [CloseTx(h)] else []))
    ensures s.tx.None? ==> r == Step(Emit(s, SuperCommit), delegate)
    ensures r.state.tx.Some? ==> r.state.tx == s.tx
    ensures Consistent(s) ==> Consistent(r.state)
  {
    var forwarded := Emit(s, SuperCommit);
    var first := if delegate.Err? then Step(forwarded, delegate) else Success(forwarded, n);
    if first.out.Ok? then first
    else Step(Failure(first.state, n).state, first.out)
  }

  /**
    Neo4jTransactionDriver.rollback(): super.rollback(), and failure() in the
    finally block whether or not it threw. An exception from failure()
    replaces the one from super.rollback().
  */
  function DriverRollback(s: State, delegate: Outcome, n: NativeOutcomes): (r: Step)
    ensures s.tx.Some? ==>
              r.state.calls == s.calls + [SuperRollback, MarkFailure(s.tx.value)] + (if n.markFailure.Ok? then [CloseTx(s.tx.value)] else [])
    ensures s.tx.None? ==> r == Step(Emit(s, SuperRollback), delegate)
    ensures r.state.tx.None? <==> s.tx.None? || n.markFailure.Ok?
    ensures r.state.tx.Some? ==> r.state.tx == s.tx
    ensures r.out == if s.tx.Some? && n.markFailure.Err? then n.markFailure
                     else if s.tx.Some? && n.close.Err? then n.close
                     else delegate
    ensures Consistent(s) ==> Consistent(r.state)
  {
    var cleanup := Failure(Emit(s, SuperRollback), n);
    Step(cleanup.state, if cleanup.out.Err? then cleanup.out else delegate)
  }

  /** One call of an entry point, with everything its collaborators answer. */
  datatype Op =
    | ExplicitJoinOp(delegate: Outcome, active: bool, jta: bool, opening: Opening, register: Outcome)
    | PulseOp(delegate: Outcome, active: bool, jta: bool, opening: Opening, register: Outcome)
    | BeforeCompletionOp(status: TransactionStatus, native: NativeOutcomes)
    | AfterCompletionOp(code: int, native: NativeOutcomes)
    | BeginOp(delegate: Outcome, opening: Opening)
    | CommitOp(delegate: Outcome, native: NativeOutcomes)
    | RollbackOp(delegate: Outcome, native: NativeOutcomes)

  function Apply(s: State, op: Op): Step
  {
    match op
    case ExplicitJoinOp(d, active, jta, opening, register) => ExplicitJoin(s, d, active, jta, opening, register)
    case PulseOp(d, active, jta, opening, register) => Pulse(s, d, active, jta, opening, register)
    case BeforeCompletionOp(status, n) => BeforeCompletion(s, status, n)
    case AfterCompletionOp(code, n) => AfterCompletion(s, code, n)
    case BeginOp(d, opening) => DriverBegin(s, d, opening)
    case CommitOp(d, n) => DriverCommit(s, d, n)
    case RollbackOp(d, n) => DriverRollback(s, d, n)
  }

  /**
    The state after the entry points ops are called one after the other,
    whether each returns or throws. Every such sequence keeps the invariant.
  */
  function Run(s: State, ops: seq<Op>): (r: State)
    ensures Consistent(s) ==> Consistent(r)
    decreases |ops|
  {
    if ops == [] then s else Run(Apply(s, ops[0]).state, ops[1..])
  }
}
