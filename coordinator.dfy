/**
  The Neo4j transaction coordinator as the objects the program has: the
  coordinator with its mutable field tx, the JTA synchronization it registers,
  and the driver that wraps Hibernate's transaction driver. The two inner
  objects reach the coordinator's field through a reference to it. Each
  method is proved to compute the matching function of module Bridge, and so
  to keep the invariant Bridge.Consistent.
*/
module Coordinator {
  import opened Collaborators
  import Bridge

  class Neo4jTransactionCoordinator {
    /** The open Neo4j transaction; None stands for Java's null. */
    var tx: Option<Handle>
    /** Every call made so far on the wrapped coordinator and driver, the graph database, its transactions and the synchronization registry. */
    ghost var calls: seq<Call>

    ghost function Model(): Bridge.State
      reads this
    {
      Bridge.State(tx, calls)
    }

    ghost predicate Valid()
      reads this
    {
      Bridge.Consistent(Model())
    }

    constructor ()
      ensures Valid() && Model() == Bridge.Initial
    {
      tx := None;
      calls := [];
    }

    /** getTransactionDriverControl(): a new driver that wraps the forwarded one and works on this coordinator's tx. */
    method GetTransactionDriverControl() returns (driver: Neo4jTransactionDriver)
      ensures fresh(driver) && driver.coordinator == this
    {
      driver := new Neo4jTransactionDriver(this);
    }

    /** explicitJoin(): forwards, then joins. */
    method ExplicitJoin(delegate: Outcome, active: bool, jta: bool, opening: Opening, register: Outcome) returns (out: Outcome)
      requires Valid()
      modifies this
      ensures Bridge.Step(Model(), out) == Bridge.ExplicitJoin(old(Model()), delegate, active, jta, opening, register)
      ensures Valid()
    {
      calls := calls + [SuperExplicitJoin];
      out := delegate;
      if out.Ok? {
        out := Join(active, jta, opening, register);
      }
    }

    /** pulse(): forwards, then joins. */
    method Pulse(delegate: Outcome, active: bool, jta: bool, opening: Opening, register: Outcome) returns (out: Outcome)
      requires Valid()
      modifies this
      ensures Bridge.Step(Model(), out) == Bridge.Pulse(old(Model()), delegate, active, jta, opening, register)
      ensures Valid()
    {
      calls := calls + [SuperPulse];
      out := delegate;
      if out.Ok? {
        out := Join(active, jta, opening, register);
      }
    }

    /** join(): opens a Neo4j transaction and registers a synchronization when none is open and the JTA transaction is active. */
    method Join(active: bool, jta: bool, opening: Opening, register: Outcome) returns (out: Outcome)
      requires Valid()
      modifies this
      ensures Bridge.Step(Model(), out) == Bridge.Join(old(Model()), active, jta, opening, register)
      ensures Valid()
    {
      out := Ok;
      if tx.None? && active && jta {
        match opening
        case OpenFailed(e) =>
          out := Err(e);
        case Opened(h) =>
          calls := calls + [BeginTx(h)];
          tx := Some(h);
          calls := calls + [RegisterSynchronization(h)];
          out := register;
      }
    }

    /** success(): marks the open transaction successful, then closes it. */
    method Success(native: NativeOutcomes) returns (out: Outcome)
      requires Valid()
      modifies this
      ensures Bridge.Step(Model(), out) == Bridge.Success(old(Model()), native)
      ensures Valid()
    {
      out := Ok;
      if tx.Some? {
        calls := calls + [MarkSuccess(tx.value)];
        out := native.markSuccess;
        if out.Ok? {
          out := Close(native.close);
        }
      }
    }

    /** failure(): marks the open transaction failed, then closes it. */
    method Failure(native: NativeOutcomes) returns (out: Outcome)
      requires Valid()
      modifies this
      ensures Bridge.Step(Model(), out) == Bridge.Failure(old(Model()), native)
      ensures Valid()
    {
      out := Ok;
      if tx.Some? {
        calls := calls + [MarkFailure(tx.value)];
        out := native.markFailure;
        if out.Ok? {
          out := Close(native.close);
        }
      }
    }

    /** close(): closes the open transaction and, in the finally block, forgets it. */
    method Close(close: Outcome) returns (out: Outcome)
      requires tx.Some?
      modifies this
      ensures tx == None
      ensures Bridge.Step(Model(), out) == Bridge.Close(old(Model()), close)
    {
      calls := calls + [CloseTx(tx.value)];
      out := close;
      tx := None;
    }
  }

  /** The JTA synchronization join() registers; it finishes the coordinator's Neo4j transaction. */
  class Neo4jSynchronization {
    const coordinator: Neo4jTransactionCoordinator

    constructor (coordinator: Neo4jTransactionCoordinator)
      ensures this.coordinator == coordinator
    {
      this.coordinator := coordinator;
    }

    /** beforeCompletion(): status is what the wrapped driver's getStatus() reports. */
    method BeforeCompletion(status: TransactionStatus, native: NativeOutcomes) returns (out: Outcome)
      requires coordinator.Valid()
      modifies coordinator
      ensures Bridge.Step(coordinator.Model(), out) == Bridge.BeforeCompletion(old(coordinator.Model()), status, native)
      ensures coordinator.Valid()
    {
      if status == MarkedRollback {
        out := coordinator.Failure(native);
      } else {
        out := coordinator.Success(native);
      }
    }

    /** afterCompletion(status): status is a javax.transaction.Status code. */
    method AfterCompletion(status: int, native: NativeOutcomes) returns (out: Outcome)
      requires coordinator.Valid()
      modifies coordinator
      ensures Bridge.Step(coordinator.Model(), out) == Bridge.AfterCompletion(old(coordinator.Model()), status, native)
      ensures coordinator.Valid()
    {
      out := Ok;
      if coordinator.tx.Some? {
        if status != STATUS_COMMITTED {
          out := coordinator.Failure(native);
        } else {
          out := coordinator.Success(native);
        }
      }
    }
  }

  /** The driver getTransactionDriverControl() hands out: Hibernate's driver, with the Neo4j transaction kept in step. */
  class Neo4jTransactionDriver {
    const coordinator: Neo4jTransactionCoordinator

    constructor (coordinator: Neo4jTransactionCoordinator)
      ensures this.coordinator == coordinator
    {
      this.coordinator := coordinator;
    }

    /** begin(): super.begin(), then a Neo4j transaction unless one is open. */
    method Begin(delegate: Outcome, opening: Opening) returns (out: Outcome)
      requires coordinator.Valid()
      modifies coordinator
      ensures Bridge.Step(coordinator.Model(), out) == Bridge.DriverBegin(old(coordinator.Model()), delegate, opening)
      ensures coordinator.Valid()
    {
      coordinator.calls := coordinator.calls + [SuperBegin];
      out := delegate;
      if out.Ok? && coordinator.tx.None? {
        match opening
        case OpenFailed(e) =>
          out := Err(e);
        case Opened(h) =>
          coordinator.calls := coordinator.calls + [BeginTx(h)];
          coordinator.tx := Some(h);
      }
    }

    /** commit(): super.commit() and success(); on an exception, failure() as cleanup and the exception rethrown. */
    method Commit(delegate: Outcome, native: NativeOutcomes) returns (out: Outcome)
      requires coordinator.Valid()
      modifies coordinator
      ensures Bridge.Step(coordinator.Model(), out) == Bridge.DriverCommit(old(coordinator.Model()), delegate, native)
      ensures coordinator.Valid()
    {
      coordinator.calls := coordinator.calls + [SuperCommit];
      out := delegate;
      if out.Ok? {
        out := coordinator.Success(native);
      }
      if out.Err? {
        var discarded := coordinator.Failure(native);
      }
    }

    /** rollback(): super.rollback(), and failure() in the finally block. */
    method Rollback(delegate: Outcome, native: NativeOutcomes) returns (out: Outcome)
      requires coordinator.Valid()
      modifies coordinator
      ensures Bridge.Step(coordinator.Model(), out) == Bridge.DriverRollback(old(coordinator.Model()), delegate, native)
      ensures coordinator.Valid()
    {
      coordinator.calls := coordinator.calls + [SuperRollback];
      var cleanup := coordinator.Failure(native);
      out := if cleanup.Err? then cleanup else delegate;
    }
  }
}
