/**
  Values exchanged between the Neo4j transaction coordinator and its
  collaborators: the Neo4j graph database and its transactions, the Hibernate
  transaction coordinator and driver it wraps, and the registry of JTA
  synchronizations. A call into a collaborator is modelled by how it ends,
  which the caller of the model supplies.
*/
module Collaborators {

  datatype Option<+T> = None | Some(value: T)

  /** A Java exception object; two exceptions are the same object exactly when their ids agree. */
  datatype Exception = Exception(id: nat)

  /** How a Java call ends: it returns normally, or it throws an exception. */
  datatype Outcome = Ok | Err(error: Exception)

  /** An org.neo4j.graphdb.Transaction object. */
  datatype Handle = Handle(id: nat)

  /** How GraphDatabaseService.beginTx() ends: with a new transaction, or by throwing. */
  datatype Opening = Opened(handle: Handle) | OpenFailed(error: Exception)

  /**
    How the calls on the open Neo4j transaction end during one entry point.
    Within one entry point each of Transaction.success(), failure() and
    close() is called at most once, so one outcome for each is enough.
  */
  datatype NativeOutcomes = NativeOutcomes(markSuccess: Outcome, markFailure: Outcome, close: Outcome)

  /** Hibernate's TransactionStatus, as reported by the wrapped driver's getStatus(). */
  datatype TransactionStatus =
    | NotActive | Active | Committed | MarkedRollback | RolledBack | FailedCommit | Committing | RollingBack

  /** javax.transaction.Status.STATUS_COMMITTED, the status code afterCompletion is told about. */
  const STATUS_COMMITTED: int := 3

  /** A call the coordinator makes on one of its collaborators. */
  datatype Call =
      /** super.explicitJoin(), super.pulse(): forwarded to the wrapped coordinator. */
    | SuperExplicitJoin
    | SuperPulse
      /** super.begin(), super.commit(), super.rollback(): forwarded to the wrapped driver. */
    | SuperBegin
    | SuperCommit
    | SuperRollback
      /** graphDB.beginTx() returned this transaction; a beginTx() that throws leaves no entry. */
    | BeginTx(handle: Handle)
      /** tx.success(), tx.failure(), tx.close() on this transaction. */
    | MarkSuccess(handle: Handle)
    | MarkFailure(handle: Handle)
    | CloseTx(handle: Handle)
      /** registerSynchronization(...) was called with a Neo4jSynchronization for this transaction, whatever its outcome. */
    | RegisterSynchronization(handle: Handle)
}
