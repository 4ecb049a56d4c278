/**
 * What the `_configsvrEnableSharding` command promises, stated over whole
 * invocations (authorization check followed by `run`).
 */
module EnableShardingProperties {
  import opened ClusterTypes
  import opened ConfigStore
  import opened FailFast
  import opened EnableSharding

  /**
   * The preconditions in code order: authorization, node role, majority write concern, shard id (when given),
   * database-name validity, and the two reserved databases.
   */
  function Guards(v: Validators, authorized: DbName -> bool, req: Request): seq<Guard> {
    var db := req.cmd.target;
    [ Guard(authorized(db), Unauthorized),
      Guard(req.role == ConfigServer, IllegalOperation),
      Guard(req.wMode == Majority, InvalidOptions),
      Guard(req.cmd.primaryShard.None? || v.validShardId(req.cmd.primaryShard.value), BadValue),
      Guard(v.validDbName(db), InvalidNamespace),
      Guard(db != AdminDb && db != LocalDb, InvalidOptions) ]
  }

  /** Every precondition holds, so the scope guard gets registered. */
  predicate Admitted(v: Validators, authorized: DbName -> bool, req: Request) {
    FirstFailure(Guards(v, authorized, req)).None?
  }

  /** The filter the optimistic update is meant to use: the name, plus the shard when one was given. */
  function RequestedFilter(cmd: Command): Filter {
    Filter(cmd.target, cmd.primaryShard)
  }

  /**
   * What the catalog manager is assumed to guarantee: whatever it reports, it
   * keeps one record per name; when it reports success, the database has a
   * sharded record.
   */
  predicate CatalogManagerContract(db: DbName, cm: CatalogOutcome) {
    && UniqueNames(cm.store)
    && (cm.CatalogOk? ==> HasShardedRecord(cm.store, db))
  }

  lemma AdmittedMeansRunChecksPass(v: Validators, authorized: DbName -> bool, req: Request)
    ensures Admitted(v, authorized, req) <==>
              authorized(req.cmd.target) && RunChecks(v, req).None?
    ensures !Admitted(v, authorized, req) && authorized(req.cmd.target) ==>
              RunChecks(v, req) == FirstFailure(Guards(v, authorized, req))
  {
    var gs := Guards(v, authorized, req);
    var db := req.cmd.target;
    if !authorized(db) {
      FirstFailureIsFirstFailing(gs, 0);
    } else if req.role != ConfigServer {
      FirstFailureIsFirstFailing(gs, 1);
    } else if req.wMode != Majority {
      FirstFailureIsFirstFailing(gs, 2);
    } else if !gs[3].holds {
      FirstFailureIsFirstFailing(gs, 3);
    } else if !gs[4].holds {
      FirstFailureIsFirstFailing(gs, 4);
    } else if !gs[5].holds {
      FirstFailureIsFirstFailing(gs, 5);
    } else {
      assert AllHold(gs);
    }
  }

  /**
   * Preconditions fail fast in code order: the first failing guard of the
   * code-ordered list decides the error, and a rejected call changes nothing
   * and calls no collaborator, not even the cache purge. An admitted call
   * starts with the optimistic update.
   */
  lemma ChecksInCodeOrder(v: Validators, authorized: DbName -> bool, req: Request, c: Cluster,
                          lock: LockOutcome, cm: CatalogOutcome)
    ensures var r := Invoke(v, authorized, req, c, lock, cm);
            var g := FirstFailure(Guards(v, authorized, req));
            && (g.Some? ==> r == Reply(Failed(g.value), c, []))
            && (g.None? ==> |r.trace| > 0 && r.trace[0].UpdateIssued?)
  {
    AdmittedMeansRunChecksPass(v, authorized, req);
  }

  /**
   * Once admitted, every exit purges the database from the cache exactly
   * once, as the last action; a rejected call never purges.
   */
  lemma PurgeOnEveryAdmittedExit(v: Validators, authorized: DbName -> bool, req: Request, c: Cluster,
                                 lock: LockOutcome, cm: CatalogOutcome)
    ensures var r := Invoke(v, authorized, req, c, lock, cm);
            var db := req.cmd.target;
            && (CachePurged(db) in r.trace <==> Admitted(v, authorized, req))
            && (Admitted(v, authorized, req) ==>
                  && db !in r.cluster.cache
                  && r.cluster.cache == c.cache - {db}
                  && r.trace[|r.trace| - 1] == CachePurged(db)
                  && forall k :: 0 <= k < |r.trace| - 1 ==> !r.trace[k].CachePurged?)
  {
    AdmittedMeansRunChecksPass(v, authorized, req);
  }

  /**
   * The optimistic update uses the name, and the primary exactly when a
   * shard was given; its effect on the collection is that of UpdateOne.
   */
  lemma OptimisticUpdateUsesRequestedFilter(v: Validators, authorized: DbName -> bool, req: Request,
                                            c: Cluster, lock: LockOutcome, cm: CatalogOutcome)
    requires WellFormed(v)
    requires Admitted(v, authorized, req)
    ensures var r := Invoke(v, authorized, req, c, lock, cm);
            var f := RequestedFilter(req.cmd);
            var u := UpdateOne(c.store, f);
            && QueryFilter(v, req.cmd.target, ShardIdOf(req.cmd)) == f
            && |r.trace| > 0 && r.trace[0] == UpdateIssued(f, u.n)
            && (u.n == 1 ==> r.cluster.store == u.docs)
  {
    AdmittedMeansRunChecksPass(v, authorized, req);
  }

  /**
   * When some record matches, the command succeeds on the fast path: no
   * lock, no catalog manager, and its reply does not depend on what those
   * collaborators would have done.
   */
  lemma FastPathSkipsLock(v: Validators, authorized: DbName -> bool, req: Request, c: Cluster,
                          lock: LockOutcome, cm: CatalogOutcome)
    requires WellFormed(v)
    requires Admitted(v, authorized, req)
    requires !NoMatch(c.store, RequestedFilter(req.cmd))
    ensures var r := Invoke(v, authorized, req, c, lock, cm);
            var f := RequestedFilter(req.cmd);
            var db := req.cmd.target;
            && r.status == Ok
            && r.trace == [UpdateIssued(f, 1), Audited(db), CachePurged(db)]
            && r.cluster == Cluster(UpdateOne(c.store, f).docs, c.cache - {db}, c.locks, c.audit + [db])
            && forall l: LockOutcome, m: CatalogOutcome :: Invoke(v, authorized, req, c, l, m) == r
  {
    AdmittedMeansRunChecksPass(v, authorized, req);
  }

  /**
   * When nothing matches and the lock cannot be taken, the lock error is the
   * result: the catalog manager is not called, nothing is audited, and only
   * the cache purge changes the state.
   */
  lemma LockFailureSurfaces(v: Validators, authorized: DbName -> bool, req: Request, c: Cluster,
                            lock: LockOutcome, cm: CatalogOutcome)
    requires WellFormed(v)
    requires Admitted(v, authorized, req)
    requires NoMatch(c.store, RequestedFilter(req.cmd))
    requires lock.LockFailed?
    ensures var r := Invoke(v, authorized, req, c, lock, cm);
            var db := req.cmd.target;
            && r.status == Failed(lock.error)
            && r.cluster == c.(cache := c.cache - {db})
            && (forall k :: 0 <= k < |r.trace| ==> !r.trace[k].CatalogManagerCalled? && !r.trace[k].Audited?)
  {
    AdmittedMeansRunChecksPass(v, authorized, req);
  }

  /**
   * The lock is requested only on a miss, and a granted lock is released
   * before the command returns; no other lock changes.
   */
  lemma LockReleasedBeforeReturn(v: Validators, authorized: DbName -> bool, req: Request, c: Cluster,
                                 lock: LockOutcome, cm: CatalogOutcome)
    requires WellFormed(v)
    ensures var r := Invoke(v, authorized, req, c, lock, cm);
            var db := req.cmd.target;
            var granted := LockRequested(db, true) in r.trace;
            && (granted <==>
                  Admitted(v, authorized, req) && NoMatch(c.store, RequestedFilter(req.cmd)) && lock.LockGranted?)
            && r.cluster.locks == (if granted then c.locks - {db} else c.locks)
            && (granted ==> db !in r.cluster.locks)
  {
    AdmittedMeansRunChecksPass(v, authorized, req);
  }

  /**
   * The catalog manager is called exactly when the call is admitted, the
   * update matched nothing and the lock was granted; then it is called for
   * the target database and the built shard id, right after the lock was
   * granted and right before that lock is released.
   */
  lemma CatalogManagerOnlyUnderLock(v: Validators, authorized: DbName -> bool, req: Request, c: Cluster,
                                    lock: LockOutcome, cm: CatalogOutcome)
    ensures var r := Invoke(v, authorized, req, c, lock, cm);
            var db := req.cmd.target;
            var f := QueryFilter(v, db, ShardIdOf(req.cmd));
            && (CatalogManagerCalled(db, ShardIdOf(req.cmd)) in r.trace <==>
                  Admitted(v, authorized, req) && NoMatch(c.store, f) && lock.LockGranted?)
            && forall k :: 0 <= k < |r.trace| && r.trace[k].CatalogManagerCalled? ==>
                 && 0 < k < |r.trace| - 1
                 && r.trace[k] == CatalogManagerCalled(db, ShardIdOf(req.cmd))
                 && r.trace[k - 1] == LockRequested(db, true)
                 && r.trace[k + 1] == LockReleased(db)
  {
    AdmittedMeansRunChecksPass(v, authorized, req);
  }

  /**
   * When nothing matches and the lock is granted, the command's outcome is
   * the catalog manager's: the collection is whatever the catalog manager
   * left (the command restores nothing, even on error); on success it audits
   * and returns true, on error it surfaces that error without an audit.
   * Either way the lock is released and the cache purged.
   */
  lemma LockedPathFollowsCatalogManager(v: Validators, authorized: DbName -> bool, req: Request, c: Cluster,
                                        cm: CatalogOutcome)
    requires WellFormed(v)
    requires Admitted(v, authorized, req)
    requires NoMatch(c.store, RequestedFilter(req.cmd))
    ensures var r := Invoke(v, authorized, req, c, LockGranted, cm);
            var db := req.cmd.target;
            var ok := cm.CatalogOk?;
            && r.status == (if ok then Ok else Failed(cm.error))
            && r.trace == [UpdateIssued(RequestedFilter(req.cmd), 0), LockRequested(db, true),
                           CatalogManagerCalled(db, ShardIdOf(req.cmd)), LockReleased(db)]
                          + (if ok then [Audited(db)] else []) + [CachePurged(db)]
            && r.cluster == Cluster(cm.store, c.cache - {db}, c.locks - {db},
                                    if ok then c.audit + [db] else c.audit)
  {
    AdmittedMeansRunChecksPass(v, authorized, req);
  }

  /** One audit entry for the target database exactly when the command succeeds, none otherwise. */
  lemma AuditExactlyOnSuccess(v: Validators, authorized: DbName -> bool, req: Request, c: Cluster,
                              lock: LockOutcome, cm: CatalogOutcome)
    ensures var r := Invoke(v, authorized, req, c, lock, cm);
            var db := req.cmd.target;
            && r.cluster.audit == (if r.status.Ok? then c.audit + [db] else c.audit)
            && (Audited(db) in r.trace <==> r.status.Ok?)
            && (r.status.Ok? ==> Admitted(v, authorized, req))
  {
    AdmittedMeansRunChecksPass(v, authorized, req);
  }

  /**
   * Given the catalog manager's assumed contract, success leaves a sharded
   * record for the database, and one record per name survives every
   * outcome, including a catalog-manager error after a partial write.
   */
  lemma SuccessLeavesDatabaseSharded(v: Validators, authorized: DbName -> bool, req: Request, c: Cluster,
                                     lock: LockOutcome, cm: CatalogOutcome)
    requires CatalogManagerContract(req.cmd.target, cm)
    ensures var r := Invoke(v, authorized, req, c, lock, cm);
            && (r.status.Ok? ==> HasShardedRecord(r.cluster.store, req.cmd.target))
            && (UniqueNames(c.store) ==> UniqueNames(r.cluster.store))
  {
    AdmittedMeansRunChecksPass(v, authorized, req);
  }

  /**
   * Running the command twice on a database whose record already matches
   * takes the fast path both times; the second run leaves the collection as
   * the first did, with the record sharded, and adds a second audit entry.
   */
  lemma RunTwiceTakesFastPath(v: Validators, authorized: DbName -> bool, req: Request, c: Cluster,
                              lock1: LockOutcome, cm1: CatalogOutcome,
                              lock2: LockOutcome, cm2: CatalogOutcome)
    requires WellFormed(v)
    requires Admitted(v, authorized, req)
    requires !NoMatch(c.store, RequestedFilter(req.cmd))
    ensures var r1 := Invoke(v, authorized, req, c, lock1, cm1);
            var r2 := Invoke(v, authorized, req, r1.cluster, lock2, cm2);
            var db := req.cmd.target;
            && r1.status == Ok && r2.status == Ok
            && r2.trace == r1.trace
            && r2.cluster.store == r1.cluster.store
            && HasShardedRecord(r2.cluster.store, db)
            && r2.cluster.audit == c.audit + [db, db]
  {
    var f := RequestedFilter(req.cmd);
    var r1 := Invoke(v, authorized, req, c, lock1, cm1);
    FastPathSkipsLock(v, authorized, req, c, lock1, cm1);
    UpdateOneIdempotent(c.store, f);
    assert !NoMatch(r1.cluster.store, f);
    FastPathSkipsLock(v, authorized, req, r1.cluster, lock2, cm2);
    var i :| IsFirstMatch(c.store, f, i) && r1.cluster.store == c.store[i := MarkSharded(c.store[i])];
    assert r1.cluster.store[i].name == req.cmd.target && r1.cluster.store[i].sharded;
  }

  /**
   * A record for the database whose primary differs from the requested
   * shard is treated like a missing record: the update matches nothing and
   * the command goes for the lock.
   */
  lemma DifferentPrimaryTakesLockedPath(v: Validators, authorized: DbName -> bool, req: Request, c: Cluster,
                                        lock: LockOutcome, cm: CatalogOutcome, i: int)
    requires WellFormed(v)
    requires Admitted(v, authorized, req)
    requires UniqueNames(c.store)
    requires req.cmd.primaryShard.Some?
    requires 0 <= i < |c.store| && c.store[i].name == req.cmd.target
    requires c.store[i].primary != req.cmd.primaryShard.value
    ensures var r := Invoke(v, authorized, req, c, lock, cm);
            && |r.trace| >= 2
            && r.trace[0] == UpdateIssued(RequestedFilter(req.cmd), 0)
            && r.trace[1] == LockRequested(req.cmd.target, lock.LockGranted?)
  {
    AdmittedMeansRunChecksPass(v, authorized, req);
    var f := RequestedFilter(req.cmd);
    assert NoMatch(c.store, f) by {
      forall j | 0 <= j < |c.store| ensures !Matches(c.store[j], f) {
        if j != i {
          assert c.store[j].name != c.store[i].name;
        }
      }
    }
  }
}
