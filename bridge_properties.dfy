/**
  Properties of the coordinator that relate several calls: every Neo4j
  transaction begun is closed once or is the one still open, synchronizations
  are registered only for transactions join() began, opening entry points open
  at most once, and the completion callbacks, commit and rollback finish the
  native transaction in the order the coordinator promises.
*/
module BridgeProperties {
  import opened Collaborators
  import opened Bridge

  /** In a well-formed log every transaction begun has been closed, except the one still open. */
  lemma {:induction false} OpenClosePairing(calls: seq<Call>)
    requires WellFormed(calls)
    ensures Begun(calls) == Closed(calls) + if OpenHandle(calls).Some? then 1 else 0
    decreases |calls|
  {
    if calls != [] {
      var before := calls[..|calls| - 1];
      OpenClosePairing(before);
    }
  }

  /**
    In a well-formed log every registration directly follows the beginTx() of
    its own transaction, so there are no more registrations than transactions
    begun (one fewer when the log ends with a beginTx() not yet given one).
  */
  lemma {:induction false} RegistrationsFollowOpens(calls: seq<Call>)
    requires WellFormed(calls)
    ensures Registered(calls) + (if Last(calls).Some? && Last(calls).value.BeginTx? then 1 else 0) <= Begun(calls)
    decreases |calls|
  {
    if calls != [] {
      var before := calls[..|calls| - 1];
      RegistrationsFollowOpens(before);
    }
  }

  /**
    Whatever entry points are called, in whatever order, with whatever their
    collaborators answer: the coordinator keeps at most one Neo4j transaction
    open, each one begun is closed once or is the one tx holds, and no
    transaction gets more than one synchronization.
  */
  lemma EveryRunPairsOpensWithCloses(ops: seq<Op>, r: State)
    requires r == Run(Initial, ops)
    ensures Begun(r.calls) == Closed(r.calls) + if r.tx.Some? then 1 else 0
    ensures Registered(r.calls) <= Begun(r.calls)
  {
    OpenClosePairing(r.calls);
    RegistrationsFollowOpens(r.calls);
  }

  /** The entry points that may begin a Neo4j transaction and never end one. */
  predicate MayOpen(op: Op)
  {
    op.ExplicitJoinOp? || op.PulseOp? || op.BeginOp?
  }

  lemma MayOpenStep(s: State, op: Op)
    requires MayOpen(op)
    ensures var r := Apply(s, op).state;
            (s.tx.Some? ==> r.tx == s.tx) &&
            Begun(r.calls) == Begun(s.calls) + if s.tx.None? && r.tx.Some? then 1 else 0
  {
  }

  /**
    Any sequence of explicitJoin(), pulse() and driver begin() calls begins at
    most one Neo4j transaction, and none at all when one is already open.
  */
  lemma {:induction false} OpeningCallsOpenAtMostOnce(s: State, ops: seq<Op>)
    requires forall i :: 0 <= i < |ops| ==> MayOpen(ops[i])
    ensures s.tx.Some? ==> Run(s, ops).tx == s.tx
    ensures Begun(Run(s, ops).calls) == Begun(s.calls) + if s.tx.None? && Run(s, ops).tx.Some? then 1 else 0
    decreases |ops|
  {
    if ops != [] {
      MayOpenStep(s, ops[0]);
      OpeningCallsOpenAtMostOnce(Apply(s, ops[0]).state, ops[1..]);
    }
  }

  /** join() is idempotent: once it has opened a transaction, joining again changes nothing. */
  lemma JoinIsIdempotent(s: State, active: bool, jta: bool, first: Opening, register: Outcome, again: Opening, register2: Outcome)
    ensures var j := Join(s, active, jta, first, register);
            j.state.tx.Some? ==> Join(j.state, active, jta, again, register2) == Step(j.state, Ok)
  {
  }

  /**
    A tx.close() that throws still clears tx: success() then throws that same
    exception, and a later join() begins a fresh transaction.
  */
  lemma CloseClearsOnError(s: State, e: Exception, next: Handle, register: Outcome)
    requires Consistent(s) && s.tx.Some?
    ensures var done := Success(s, NativeOutcomes(Ok, Ok, Err(e)));
            done.out == Err(e) && done.state.tx == None &&
            Join(done.state, true, true, Opened(next), register).state.tx == Some(next) &&
            Consistent(Join(done.state, true, true, Opened(next), register).state)
  {
  }

  /**
    beforeCompletion() followed by afterCompletion(): once the first has
    reached close(), the second calls nothing, so no transaction is closed twice.
  */
  lemma NoSecondCloseAfterCompletion(s: State, status: TransactionStatus, n: NativeOutcomes, code: int, n2: NativeOutcomes)
    requires s.tx.Some? ==> (if status == MarkedRollback then n.markFailure else n.markSuccess).Ok?
    ensures var before := BeforeCompletion(s, status, n);
            AfterCompletion(before.state, code, n2) == Step(before.state, Ok) &&
            Closed(before.state.calls) == Closed(s.calls) + if s.tx.Some? then 1 else 0
  {
  }

  /** The rollback cleanup does the same to the Neo4j transaction whether super.rollback() returns or throws. */
  lemma RollbackCleanupIgnoresDelegate(s: State, returned: Outcome, thrown: Exception, n: NativeOutcomes)
    ensures DriverRollback(s, returned, n).state == DriverRollback(s, Err(thrown), n).state
    ensures s.tx.Some? && n.markFailure.Ok? ==> DriverRollback(s, Err(thrown), n).state.tx == None
  {
  }

  /**
    Commit where super.commit() throws e and the cleanup's tx.failure() or
    tx.close() throws too: the caller sees e, and only e.
  */
  lemma CommitFailureMasksNothing(s: State, e: Exception, cleanup: Exception, closeErr: Exception)
    ensures DriverCommit(s, Err(e), NativeOutcomes(Ok, Err(cleanup), Ok)).out == Err(e)
    ensures DriverCommit(s, Err(e), NativeOutcomes(Ok, Ok, Err(closeErr))).out == Err(e)
  {
  }

  /**
    A JTA transaction that is active when joined and then marked for
    rollback: join() begins a Neo4j transaction and registers the
    synchronization, beforeCompletion() marks it failed and closes it,
    nothing is thrown and tx ends empty.
  */
  lemma MarkedRollbackScenario(s: State, h: Handle)
    requires Consistent(s) && s.tx.None?
    ensures var ok := NativeOutcomes(Ok, Ok, Ok);
            var joined := ExplicitJoin(s, Ok, true, true, Opened(h), Ok);
            var done := BeforeCompletion(joined.state, MarkedRollback, ok);
            joined.out == Ok && done.out == Ok && done.state.tx == None &&
            done.state.calls == s.calls + [SuperExplicitJoin, BeginTx(h), RegisterSynchronization(h), MarkFailure(h), CloseTx(h)] &&
            Consistent(done.state)
  {
  }
}
