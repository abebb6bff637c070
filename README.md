# Neo4j transaction coordinator of Hibernate OGM, in Dafny

Hibernate OGM's Neo4j dialect keeps a Neo4j `Transaction` in step with the
Hibernate or JTA transaction that governs a session. `Neo4jTransactionCoordinator`
holds the Neo4j transaction in one mutable field, `tx`. Four entry points reach it:

- `explicitJoin()` and `pulse()`, through the private `join()`;
- the wrapping driver's `begin()`, `commit()` and `rollback()`;
- the JTA synchronization's `beforeCompletion()`;
- the JTA synchronization's `afterCompletion(status)`.

All of them finish the Neo4j transaction through the same private `success()`,
`failure()` and `close()`.

The project has two layers.

- `bridge.dfy` (module `Bridge`) describes each Java method as a function over
  values. The state is `tx` plus a log of the calls made on collaborators:
  the wrapped coordinator and driver, `GraphDatabaseService.beginTx()`, the
  transaction's `success()`, `failure()` and `close()`, and the registration of
  a synchronization. A `beginTx()` that throws leaves no entry, since it opens
  no transaction; a registration is logged whether or not it throws. On every
  path, each function's contract says how the method ends, what it does to
  `tx` and which calls it makes on the Neo4j transaction. Each function also keeps the
  invariant `Consistent`. That invariant says:
  - a transaction is begun only when none is open;
  - it is marked and closed only while it is the open one;
  - `close()` comes right after a mark;
  - a synchronization is registered only right after `beginTx()`;
  - `tx` is the transaction the log leaves open.
- `coordinator.dfy` (module `Coordinator`) has the program's own objects. These
  are the class `Neo4jTransactionCoordinator` with its field `tx`, and the inner
  classes `Neo4jSynchronization` and `Neo4jTransactionDriver`, which update the
  coordinator's field through a reference to it. Each method follows the Java
  control flow and is proved to compute exactly the matching `Bridge` function.

`bridge_properties.dfy` (module `BridgeProperties`) proves what holds across
calls. Any sequence of entry points, with any answers from the collaborators,
keeps at most one Neo4j transaction open. Every transaction begun is closed
once or is the one `tx` still holds. Every synchronization belongs to a
transaction that `join()` has just begun. A run of opening calls begins at most
one transaction. `afterCompletion` calls nothing once `beforeCompletion` has
closed the transaction. A commit whose cleanup also fails reports only the
first error.

Java exceptions are the values of `Outcome` (`Ok` or `Err(e)`). Each call into
a collaborator is modelled by how it ends, given as a parameter:
`super.explicitJoin()`, `super.pulse()`, `super.begin()`, `super.commit()`,
`super.rollback()`, `beginTx()`, `registerSynchronization(...)`, and
`tx.success()`, `tx.failure()`, `tx.close()`. The last three are bundled as
`NativeOutcomes`: within one entry point each of them runs at most once. The
answers of `isActive()`, `isJta()` and `getStatus()` are parameters too.

Two consequences of the code's control flow are easy to miss:

- `success()` and `failure()` call `tx.success()` or `tx.failure()` before
  `close()`. When that mark call throws, `close()` is never reached and `tx`
  stays set. The handle is cleared on every path only once `close()` runs.
- In `rollback()`, when both `super.rollback()` and `failure()` throw, the
  caller sees only the exception from `failure()`, because Java's `finally`
  replaces the first exception. Only one of the two ever surfaces.

## Model

All source paths are `neo4j/src/main/java/org/hibernate/ogm/datastore/neo4j/transaction/impl/Neo4jTransactionCoordinator.java`, written out in each row.

| member | source | states |
|---|---|---|
| Bridge.Close | neo4j/src/main/java/org/hibernate/ogm/datastore/neo4j/transaction/impl/Neo4jTransactionCoordinator.java:79-89 | afterwards no transaction is open whatever `tx.close()` does; `close()` ends exactly as `tx.close()` did (the same exception is rethrown); exactly one close is logged; when called right after a mark, the invariant is kept |
| Bridge.Success | neo4j/src/main/java/org/hibernate/ogm/datastore/neo4j/transaction/impl/Neo4jTransactionCoordinator.java:65-70 | no-op without a transaction; otherwise `tx.success()` then, only if that returned, `close()`; `tx` is cleared exactly when the mark returned; the exception seen is the mark's, else the close's; keeps the invariant |
| Bridge.Failure | neo4j/src/main/java/org/hibernate/ogm/datastore/neo4j/transaction/impl/Neo4jTransactionCoordinator.java:72-77 | the same as `Success` with `tx.failure()` as the mark |
| Bridge.Join | neo4j/src/main/java/org/hibernate/ogm/datastore/neo4j/transaction/impl/Neo4jTransactionCoordinator.java:58-63 | `tx` changes exactly when none is open, the coordinator is active, the builder is JTA and `beginTx()` returns; then one transaction is begun and one synchronization registered for it, and the registration's outcome is returned; in every other case the state is unchanged; keeps the invariant |
| Bridge.ExplicitJoin | neo4j/src/main/java/org/hibernate/ogm/datastore/neo4j/transaction/impl/Neo4jTransactionCoordinator.java:47-50 | the call is forwarded first; if it throws, that exception propagates and `join()` is skipped, otherwise the result is `join()`'s |
| Bridge.Pulse | neo4j/src/main/java/org/hibernate/ogm/datastore/neo4j/transaction/impl/Neo4jTransactionCoordinator.java:53-56 | the same as `ExplicitJoin`, forwarding `pulse()` |
| Bridge.BeforeCompletion | neo4j/src/main/java/org/hibernate/ogm/datastore/neo4j/transaction/impl/Neo4jTransactionCoordinator.java:94-102 | status `MARKED_ROLLBACK` takes the `failure()` path (the first call is `tx.failure()`); any other status takes the `success()` path; no-op without a transaction |
| Bridge.AfterCompletion | neo4j/src/main/java/org/hibernate/ogm/datastore/neo4j/transaction/impl/Neo4jTransactionCoordinator.java:105-114 | nothing at all when `tx` is null; otherwise it is exactly `success()` for `STATUS_COMMITTED` and `failure()` for every other status (mark, close, clearing and exception included) |
| Bridge.DriverBegin | neo4j/src/main/java/org/hibernate/ogm/datastore/neo4j/transaction/impl/Neo4jTransactionCoordinator.java:124-129 | `super.begin()` comes first; a transaction is begun exactly when `super.begin()` returned, none was open and `beginTx()` returned; it checks neither activity nor JTA and registers no synchronization; if `super.begin()` throws, `tx` is unchanged and that exception propagates; when `super.begin()` returned and a transaction is already open, it returns normally |
| Bridge.DriverCommit | neo4j/src/main/java/org/hibernate/ogm/datastore/neo4j/transaction/impl/Neo4jTransactionCoordinator.java:132-145 | the caller sees the exception of `super.commit()` if it threw, else that of `success()`, and never one from the `failure()` cleanup; the commit returns normally exactly when the delegate and the success path did; `tx` ends empty exactly when one of the marks returned; the full log on every path: with no transaction only the forwarded call; after a returning `super.commit()`, `tx.success()` and then either `close()` or the `failure()` cleanup; after a throwing one, `tx.failure()` and never `tx.success()` |
| Bridge.DriverRollback | neo4j/src/main/java/org/hibernate/ogm/datastore/neo4j/transaction/impl/Neo4jTransactionCoordinator.java:148-155 | `failure()` runs after `super.rollback()` and does the same whatever `super.rollback()` did; `tx` ends empty exactly when `tx.failure()` returned; with no transaction only the forwarded call is made; an exception from `failure()` replaces the delegate's |
| Bridge.Run | neo4j/src/main/java/org/hibernate/ogm/datastore/neo4j/transaction/impl/Neo4jTransactionCoordinator.java:30-158 | any sequence of entry points, each returning or throwing, keeps the invariant: one Neo4j transaction at most, and `tx` is the one the log leaves open |
| BridgeProperties.OpenClosePairing | neo4j/src/main/java/org/hibernate/ogm/datastore/neo4j/transaction/impl/Neo4jTransactionCoordinator.java:58-89 | in a well-formed log, transactions begun = transactions closed + (1 if one is still open) |
| BridgeProperties.RegistrationsFollowOpens | neo4j/src/main/java/org/hibernate/ogm/datastore/neo4j/transaction/impl/Neo4jTransactionCoordinator.java:58-63 | every registration directly follows its own `beginTx()`, so there are never more synchronizations than transactions begun |
| BridgeProperties.EveryRunPairsOpensWithCloses | neo4j/src/main/java/org/hibernate/ogm/datastore/neo4j/transaction/impl/Neo4jTransactionCoordinator.java:30-158 | from a new coordinator, after any sequence of calls, every transaction begun has been closed except the one `tx` holds, and there are no more registrations than transactions begun; that each transaction gets at most one comes from the invariant `Run` keeps, which allows a registration only directly after its own `beginTx()` |
| BridgeProperties.OpeningCallsOpenAtMostOnce | neo4j/src/main/java/org/hibernate/ogm/datastore/neo4j/transaction/impl/Neo4jTransactionCoordinator.java:58-63 | any sequence of `explicitJoin`, `pulse` and driver `begin` calls begins at most one transaction, none when one is already open, and never clears `tx` |
| BridgeProperties.JoinIsIdempotent | neo4j/src/main/java/org/hibernate/ogm/datastore/neo4j/transaction/impl/Neo4jTransactionCoordinator.java:58-63 | once `join()` has a transaction open, a second `join()` changes nothing and returns normally |
| BridgeProperties.CloseClearsOnError | neo4j/src/main/java/org/hibernate/ogm/datastore/neo4j/transaction/impl/Neo4jTransactionCoordinator.java:79-89 | when `tx.close()` throws `e`, `success()` throws `e`, `tx` is cleared, and a later `join()` begins a fresh transaction |
| BridgeProperties.NoSecondCloseAfterCompletion | neo4j/src/main/java/org/hibernate/ogm/datastore/neo4j/transaction/impl/Neo4jTransactionCoordinator.java:94-114 | once `beforeCompletion` has reached `close()`, `afterCompletion` with any status does nothing, so the transaction is closed once |
| BridgeProperties.RollbackCleanupIgnoresDelegate | neo4j/src/main/java/org/hibernate/ogm/datastore/neo4j/transaction/impl/Neo4jTransactionCoordinator.java:148-155 | the state after `rollback()` is the same whether `super.rollback()` returns or throws; a failed delegate rollback still clears `tx` when `tx.failure()` returns |
| BridgeProperties.CommitFailureMasksNothing | neo4j/src/main/java/org/hibernate/ogm/datastore/neo4j/transaction/impl/Neo4jTransactionCoordinator.java:132-145 | when `super.commit()` throws `e` and the cleanup's `tx.failure()` or `tx.close()` throws too, the caller sees `e` |
| BridgeProperties.MarkedRollbackScenario | neo4j/src/main/java/org/hibernate/ogm/datastore/neo4j/transaction/impl/Neo4jTransactionCoordinator.java:47-102 | active JTA transaction: `explicitJoin()` begins and registers; after it is marked for rollback, `beforeCompletion()` calls `tx.failure()` and `tx.close()`; nothing is thrown and `tx` ends empty |
| Coordinator.Neo4jTransactionCoordinator.constructor | neo4j/src/main/java/org/hibernate/ogm/datastore/neo4j/transaction/impl/Neo4jTransactionCoordinator.java:33-38 | a new coordinator has no transaction and has made no call |
| Coordinator.Neo4jTransactionCoordinator.GetTransactionDriverControl | neo4j/src/main/java/org/hibernate/ogm/datastore/neo4j/transaction/impl/Neo4jTransactionCoordinator.java:41-44 | returns a new driver bound to this coordinator |
| Coordinator.Neo4jTransactionCoordinator.ExplicitJoin | neo4j/src/main/java/org/hibernate/ogm/datastore/neo4j/transaction/impl/Neo4jTransactionCoordinator.java:47-50 | updates `tx` and the log exactly as `Bridge.ExplicitJoin`, keeping the invariant |
| Coordinator.Neo4jTransactionCoordinator.Pulse | neo4j/src/main/java/org/hibernate/ogm/datastore/neo4j/transaction/impl/Neo4jTransactionCoordinator.java:53-56 | updates `tx` and the log exactly as `Bridge.Pulse`, keeping the invariant |
| Coordinator.Neo4jTransactionCoordinator.Join | neo4j/src/main/java/org/hibernate/ogm/datastore/neo4j/transaction/impl/Neo4jTransactionCoordinator.java:58-63 | updates `tx` and the log exactly as `Bridge.Join`, keeping the invariant |
| Coordinator.Neo4jTransactionCoordinator.Success | neo4j/src/main/java/org/hibernate/ogm/datastore/neo4j/transaction/impl/Neo4jTransactionCoordinator.java:65-70 | updates `tx` and the log exactly as `Bridge.Success`, keeping the invariant |
| Coordinator.Neo4jTransactionCoordinator.Failure | neo4j/src/main/java/org/hibernate/ogm/datastore/neo4j/transaction/impl/Neo4jTransactionCoordinator.java:72-77 | updates `tx` and the log exactly as `Bridge.Failure`, keeping the invariant |
| Coordinator.Neo4jTransactionCoordinator.Close | neo4j/src/main/java/org/hibernate/ogm/datastore/neo4j/transaction/impl/Neo4jTransactionCoordinator.java:79-89 | leaves `tx` null and updates the log exactly as `Bridge.Close` |
| Coordinator.Neo4jSynchronization.BeforeCompletion | neo4j/src/main/java/org/hibernate/ogm/datastore/neo4j/transaction/impl/Neo4jTransactionCoordinator.java:94-102 | updates the coordinator exactly as `Bridge.BeforeCompletion`, keeping its invariant |
| Coordinator.Neo4jSynchronization.AfterCompletion | neo4j/src/main/java/org/hibernate/ogm/datastore/neo4j/transaction/impl/Neo4jTransactionCoordinator.java:105-114 | updates the coordinator exactly as `Bridge.AfterCompletion`, keeping its invariant |
| Coordinator.Neo4jTransactionDriver.Begin | neo4j/src/main/java/org/hibernate/ogm/datastore/neo4j/transaction/impl/Neo4jTransactionCoordinator.java:124-129 | updates the coordinator exactly as `Bridge.DriverBegin`, keeping its invariant |
| Coordinator.Neo4jTransactionDriver.Commit | neo4j/src/main/java/org/hibernate/ogm/datastore/neo4j/transaction/impl/Neo4jTransactionCoordinator.java:132-145 | updates the coordinator exactly as `Bridge.DriverCommit`, keeping its invariant |
| Coordinator.Neo4jTransactionDriver.Rollback | neo4j/src/main/java/org/hibernate/ogm/datastore/neo4j/transaction/impl/Neo4jTransactionCoordinator.java:148-155 | updates the coordinator exactly as `Bridge.DriverRollback`, keeping its invariant |

## Left out

- What Neo4j's `GraphDatabaseService.beginTx()` and `Transaction.success()`, `failure()` and `close()` do inside Neo4j. Each is a foreign call, modelled only by whether it returns (with a new transaction for `beginTx()`) or throws, and by an entry in the log.
- Hibernate's `ForwardingTransactionCoordinator` and `ForwardingTransactionDriver`, and the answers of `isActive()`, `getTransactionCoordinatorBuilder().isJta()` and `getStatus()`. These are library code outside this model: the forwarded calls are log entries with a given outcome, and the answers are parameters. Exceptions from the queries themselves are not modelled.
- The synchronization registry (`getLocalSynchronizations()`). A registration is a log entry with a given outcome. The `Neo4jSynchronization` object handed to the registry is not allocated by `join()`; a `Neo4jSynchronization` built on the coordinator stands for it.
- The wrapped driver inside `Neo4jTransactionDriver` and the `super.getTransactionDriverControl()` call in `getTransactionDriverControl()`. The driver's forwarded calls appear only as log entries with given outcomes.
- The window between the Neo4j commit in `beforeCompletion` and the end of the JTA transaction, described in the class comment. A crash there is a durability concern across two systems, not a property of one sequential run.
- Thread safety. The class has no locking; the host serialises calls to one transaction, and the model is sequential.
- The integer codes of `javax.transaction.Status` other than `STATUS_COMMITTED` (3). `afterCompletion` only compares with that one. Hibernate's `TransactionStatus` values are listed, but only `MARKED_ROLLBACK` is distinguished.
- Java `Error`s (throwables that are not `Exception`s), which `commit()`'s `catch (Exception e)` would not catch. Every failure here is an `Exception`.
