# Enabling sharding on a database: a Dafny model of `_configsvrEnableSharding`

This project models the config server command `_configsvrEnableSharding` from
`src/mongo/db/s/config/configsvr_enable_sharding_command.cpp`. The command works in this order:

1. It checks that the caller may run the `internal` action on the target database.
2. It checks, in code order, the node role, the majority write concern, the optional `primaryShard` field, the database name, and the reserved `admin`/`local` names.
3. It registers a scope guard that purges the database from this node's catalog cache.
4. It tries one optimistic update of `config.databases`: `{$set: {sharded: true}}` with `multi: false` and `upsert: false`.
5. When that update does not match exactly one record, it takes the distributed lock for the database and calls the catalog manager's `enableSharding`.
6. On success it writes an audit entry.

The model is functional. A `Cluster` value holds four parts:

- the `config.databases` documents, as a sequence in collection order;
- the set of database names in the local catalog cache;
- the set of held distributed-lock resources;
- the audit log.

`EnableSharding.Invoke` performs the authorization check and then `EnableSharding.Run`. It returns a `Reply`, which holds:

- the status: `run` returned true, or the error it raised;
- the cluster afterwards;
- a trace of the calls made on collaborators, in order: update, lock request, catalog-manager call, lock release, audit, purge.

The trace is what lets the properties say that a collaborator was *not* called.

The command's collaborators are inputs, not code:

- The authorization session's answer is a predicate `authorized` on database names.
- `NamespaceString::validDBName` and `ShardId::isValid` are function-valued fields of `Validators`. The only thing assumed about them (`WellFormed`) is that a default-constructed `ShardId()` (the empty name) is not valid. The code relies on this at lines 116 and 145.
- The outcome of the distributed lock request is a `LockOutcome`.
- The outcome of `ShardingCatalogManager::enableSharding` is a `CatalogOutcome`: success or an error, carrying in both cases the collection the catalog manager leaves behind. A failing call may have written before it threw, and the command does not undo that. The properties assume only that this collection still has one record per name, and that on success it has a sharded record for the database (`CatalogManagerContract`).

Modules:

- `ClusterTypes` (`cluster_types.dfy`): records, error codes, roles, constants (`"majority"`, `"admin"`, `"local"`, the default shard id) and the validators.
- `ConfigStore` (`config_store.dfy`): the query filter, the first-match scan and the single-document update, with their lemmas.
- `FailFast` (`fail_fast.dfy`): a reference reading of a chain of `uassert`s. The first guard that fails decides the error.
- `EnableSharding` (`enable_sharding.dfy`): the command.
- `EnableShardingProperties` (`enable_sharding_properties.dfy`): the promised behaviour, stated over whole invocations.

Points where the command's code is easy to misread, and which the model follows exactly:

- The shard check comes first. The code checks `primaryShard` (`BadValue`, lines 119-121) before the name (`InvalidNamespace`, lines 123-126) and before the reserved names (`InvalidOptions`, lines 128-131). `EnableShardingProperties.Guards` uses this order.
- A given shard is only checked with `ShardId::isValid`, a syntactic check. Whether such a shard is registered is left to the catalog manager.
- A failure before the scope guard is registered (line 134) does not purge the cache. The cache is purged on every exit only once the preconditions have passed.
- If a record exists with a primary other than the requested shard, the update matches nothing (`n == 0`), and the command takes the locked path instead of reporting a conflict.

## Model

| member | source | states |
|---|---|---|
| ConfigStore.FindFirst | src/mongo/db/s/config/configsvr_enable_sharding_command.cpp:143-152 | the update's scan selects the first record in collection order whose name (and primary, when the filter has one) match; it finds none exactly when no record matches |
| ConfigStore.UpdateOne | src/mongo/db/s/config/configsvr_enable_sharding_command.cpp:140-158 | the optimistic update never inserts a record and reports at most one match; with no match the collection is unchanged; with a match only the first matching record changes, and only `sharded := true`; names and primaries are kept, `sharded` never goes back to false, and one-record-per-name is preserved |
| ConfigStore.SingleUpdateMatchesAllSelected | src/mongo/db/s/config/configsvr_enable_sharding_command.cpp:143-153 | because the filter always pins `name` and names are unique, the `multi: false` update's matched count equals the number of records the filter selects |
| ConfigStore.UpdateOneIdempotent | src/mongo/db/s/config/configsvr_enable_sharding_command.cpp:136-161 | re-issuing the update on its own result matches the same record again, reports the same count and changes nothing further |
| FailFast.FirstFailure | src/mongo/db/s/config/configsvr_enable_sharding_command.cpp:100-131 | a chain of checks yields no error exactly when every check holds; otherwise it yields the code of a failing check that every earlier check passed |
| FailFast.FirstFailureIsFirstFailing | src/mongo/db/s/config/configsvr_enable_sharding_command.cpp:100-131 | conversely, the code of the first failing check is the error that is reported |
| EnableShardingProperties.AdmittedMeansRunChecksPass | src/mongo/db/s/config/configsvr_enable_sharding_command.cpp:84-131 | the ordered guard list (authorization, role, write concern, shard id, name, reserved names) passes exactly when authorization and every `uassert` of `run` before the scope guard pass, and it reports the same first error |
| EnableShardingProperties.ChecksInCodeOrder | src/mongo/db/s/config/configsvr_enable_sharding_command.cpp:81-131 | the first failing precondition in code order decides the error (`Unauthorized`, `IllegalOperation`, `InvalidOptions`, `BadValue`, `InvalidNamespace`, `InvalidOptions`); such a call leaves the store, cache, locks and audit log unchanged and calls nothing; an admitted call starts with the optimistic update |
| EnableShardingProperties.PurgeOnEveryAdmittedExit | src/mongo/db/s/config/configsvr_enable_sharding_command.cpp:133-134 | the purge happens exactly when the preconditions passed; then, whatever the outcome, the database is no longer cached, the purge is the last action, it happens once, and no other cache entry changes |
| EnableShardingProperties.OptimisticUpdateUsesRequestedFilter | src/mongo/db/s/config/configsvr_enable_sharding_command.cpp:113-158 | the update's filter is the database name, plus the primary exactly when a shard was given; its matched count and effect are those of the single-document update |
| EnableShardingProperties.FastPathSkipsLock | src/mongo/db/s/config/configsvr_enable_sharding_command.cpp:160-171 | when a record matches, the command succeeds after the update alone: no lock request, no catalog-manager call, then audit and purge; the reply is the same whatever the lock or catalog manager would have done |
| EnableShardingProperties.LockFailureSurfaces | src/mongo/db/s/config/configsvr_enable_sharding_command.cpp:162-164 | when nothing matches and the lock cannot be taken, the lock's error is returned, the catalog manager is not called, nothing is audited, and only the cache purge changes the state |
| EnableShardingProperties.LockReleasedBeforeReturn | src/mongo/db/s/config/configsvr_enable_sharding_command.cpp:162-167 | the lock is granted on a path exactly when the call is admitted, nothing matches and the lock manager grants it; a granted lock is no longer held after the command returns, and no other lock changes |
| EnableShardingProperties.CatalogManagerOnlyUnderLock | src/mongo/db/s/config/configsvr_enable_sharding_command.cpp:162-167 | the catalog manager is called exactly when the call is admitted, the update matched nothing and the lock was granted; then it is called for the target database and the built shard id, right after the lock was granted and right before it is released |
| EnableShardingProperties.LockedPathFollowsCatalogManager | src/mongo/db/s/config/configsvr_enable_sharding_command.cpp:162-171 | when nothing matches and the lock is granted, the command returns the catalog manager's outcome and keeps the collection the catalog manager left, on error as on success (nothing is restored); it audits and returns true only on success and surfaces the error otherwise; the full call sequence is update, lock, catalog manager, release, (audit), purge, and the lock is not held afterwards |
| EnableShardingProperties.AuditExactlyOnSuccess | src/mongo/db/s/config/configsvr_enable_sharding_command.cpp:169-171 | the audit log gains exactly one entry for the database when the command returns true and none otherwise |
| EnableShardingProperties.SuccessLeavesDatabaseSharded | src/mongo/db/s/config/configsvr_enable_sharding_command.cpp:136-171 | given the catalog manager's assumed contract (one record per name whatever it reports, a sharded record on success), success leaves a sharded record for the database, and every outcome keeps one record per name |
| EnableShardingProperties.RunTwiceTakesFastPath | src/mongo/db/s/config/configsvr_enable_sharding_command.cpp:136-171 | on an existing matching record, two runs both take the fast path and succeed; the second leaves the collection as the first did, with the record sharded, and adds a second audit entry |
| EnableShardingProperties.DifferentPrimaryTakesLockedPath | src/mongo/db/s/config/configsvr_enable_sharding_command.cpp:143-164 | a record for the database with a primary other than the requested shard is treated as absent: the update matches nothing and the command requests the lock |

## Left out

- BSON construction and parsing, the `write_ops` update command, `UpdateOp::parseResponse` and `DBDirectClient`. These are serialization and I/O. The update is modelled only by what it matches and what it sets. A write error raised by the update itself (an exit after line 134, which still purges) is not modelled.
- `shardElem.String()` on a `primaryShard` element that is not a string, which raises a type error. BSON typing is not modelled; the field is either absent or a string.
- The read concern set at lines 110-111. It has no observable effect in this file.
- The internals of `ShardingCatalogManager::enableSharding`, including how it chooses a primary shard. That code is not part of this model. Its success is an input that carries the resulting collection, and `CatalogManagerContract` is an assumption, not a proof.
- The internals of `DistLockManager`: timeouts, expiry, and serialization across the cluster. Lock acquisition is an input. Concurrent callers, and any property about several calls running at once, are out of scope.
- `NamespaceString::validDBName`, `ShardId::isValid` and `AuthorizationSession` are uninterpreted, apart from the invalid default shard id.
- Command registration: `help`, `secondaryAllowed`, `adminOnly`, `supportsWriteConcern`. Audit record contents and logging are also left out; an audit entry is just the database name.
- EnableShardingProperties.LockReleasedBeforeReturn: the lock table is a set of resource names, so the statement is exact only when the resource was not already held before the call. A granted lock on a resource that was already held cannot happen under the lock manager's mutual exclusion, which is not modelled.
