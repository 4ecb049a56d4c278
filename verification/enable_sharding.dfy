/**
 * The `_configsvrEnableSharding` command: its authorization check, the
 * chain of preconditions in `run`, the optimistic update of
 * `config.databases`, the fallback to the distributed lock and the catalog
 * manager, the audit entry, and the cache purge registered as a scope guard.
 *
 * The collaborators the command calls but does not define are inputs: the
 * answer of the authorization session, the outcome of the lock request, and
 * the outcome of the catalog manager (with the collection it leaves behind).
 */
module EnableSharding {
  import opened ClusterTypes
  import opened ConfigStore

  /** The state the command reads and writes. */
  datatype Cluster = Cluster(
    store: seq<DatabaseRecord>,  // config.databases
    cache: set<DbName>,          // databases held by this node's catalog cache
    locks: set<DbName>,          // distributed-lock resources currently held
    audit: seq<DbName>)          // enableSharding audit entries, oldest first

  /** The command object: its first element names the database; `primaryShard` is optional. */
  datatype Command = Command(target: DbName, primaryShard: Option<ShardId>)

  /** The command together with the node role and the write concern it runs under. */
  datatype Request = Request(role: ClusterRole, wMode: string, cmd: Command)

  datatype LockOutcome = LockGranted | LockFailed(error: ErrorCode)

  /**
   * What the catalog manager's enableSharding did: success or the error it
   * raised, with the collection it left behind either way (it may have
   * written before failing, and the command restores nothing).
   */
  datatype CatalogOutcome =
    | CatalogOk(store: seq<DatabaseRecord>)
    | CatalogFailed(error: ErrorCode, store: seq<DatabaseRecord>)

  /** `run` returning true, or the error it raised. */
  datatype Status = Ok | Failed(error: ErrorCode)

  /** The calls the command makes on its collaborators, in order. */
  datatype Event =
    | UpdateIssued(filter: Filter, n: nat)
    | LockRequested(resource: DbName, granted: bool)
    | CatalogManagerCalled(db: DbName, shard: ShardId)
    | LockReleased(resource: DbName)
    | Audited(db: DbName)
    | CachePurged(db: DbName)

  datatype Reply = Reply(status: Status, cluster: Cluster, trace: seq<Event>)

  /** The database a command is about: the string value of its first element. */
  function ParseNs(cmd: Command): DbName {
    cmd.target
  }

  /** The shard id `run` builds: the given one, or a default-constructed id. */
  function ShardIdOf(cmd: Command): ShardId {
    match cmd.primaryShard
    case Some(s) => s
    case None => DefaultShardId
  }

  /** The `internal` action on the target database must be authorized. */
  function CheckAuth(authorized: DbName -> bool, cmd: Command): Status
  {
    if !authorized(ParseNs(cmd)) then Failed(Unauthorized) else Ok
  }

  /** The `uassert`s of `run` that precede the scope guard, in code order. */
  function RunChecks(v: Validators, req: Request): Option<ErrorCode> {
    var dbname := ParseNs(req.cmd);
    var shardId := ShardIdOf(req.cmd);
    if req.role != ConfigServer then Some(IllegalOperation)
    else if req.wMode != Majority then Some(InvalidOptions)
    else if !(req.cmd.primaryShard.None? || v.validShardId(shardId)) then Some(BadValue)
    else if !v.validDbName(dbname) then Some(InvalidNamespace)
    else if dbname == AdminDb || dbname == LocalDb then Some(InvalidOptions)
    else None
  }

  /** The filter of the optimistic update: `primary` is added only for a valid shard id. */
  function QueryFilter(v: Validators, dbname: DbName, shardId: ShardId): Filter {
    Filter(dbname, if v.validShardId(shardId) then Some(shardId) else None)
  }

  /**
   * The block taken when the optimistic update did not match exactly one
   * record: take the distributed lock on the database (its failure is raised
   * as is), call the catalog manager, and drop the lock when the scoped lock
   * handle goes away, whether or not the catalog manager succeeded.
   */
  function LockedEnable(c: Cluster, dbname: DbName, shardId: ShardId,
                        lock: LockOutcome, cm: CatalogOutcome): Reply
  {
    match lock
    case LockFailed(e) => Reply(Failed(e), c, [LockRequested(dbname, false)])
    case LockGranted =>
      var held := c.(locks := c.locks + {dbname});
      var after := held.(store := cm.store);
      var released := after.(locks := after.locks - {dbname});
      var events := [LockRequested(dbname, true), CatalogManagerCalled(dbname, shardId), LockReleased(dbname)];
      Reply(if cm.CatalogOk? then Ok else Failed(cm.error), released, events)
  }

  /** The audit entry written just before `run` returns true. */
  function Audit(r: Reply, dbname: DbName): Reply {
    Reply(Ok, r.cluster.(audit := r.cluster.audit + [dbname]), r.trace + [Audited(dbname)])
  }

  /** The scope guard's action: drop the database from this node's catalog cache. */
  function Purge(r: Reply, dbname: DbName): Reply {
    Reply(r.status, r.cluster.(cache := r.cluster.cache - {dbname}), r.trace + [CachePurged(dbname)])
  }

  /** Everything `run` does after registering the scope guard, up to returning. */
  function Guarded(v: Validators, dbname: DbName, shardId: ShardId, c: Cluster,
                   lock: LockOutcome, cm: CatalogOutcome): Reply
  {
    var f := QueryFilter(v, dbname, shardId);
    var u := UpdateOne(c.store, f);
    var updated := c.(store := u.docs);
    var issued := [UpdateIssued(f, u.n)];
    if u.n != 1 then
      var l := LockedEnable(updated, dbname, shardId, lock, cm);
      if l.status.Failed? then Reply(l.status, l.cluster, issued + l.trace)
      else Audit(Reply(Ok, l.cluster, issued + l.trace), dbname)
    else
      Audit(Reply(Ok, updated, issued), dbname)
  }

  /** `run`: the preconditions, then the guarded body followed by the purge on every exit. */
  function Run(v: Validators, req: Request, c: Cluster, lock: LockOutcome, cm: CatalogOutcome): Reply {
    match RunChecks(v, req)
    case Some(e) => Reply(Failed(e), c, [])
    case None =>
      var dbname := ParseNs(req.cmd);
      Purge(Guarded(v, dbname, ShardIdOf(req.cmd), c, lock, cm), dbname)
  }

  /** A command invocation: the authorization check, then `run`. */
  function Invoke(v: Validators, authorized: DbName -> bool, req: Request, c: Cluster,
                  lock: LockOutcome, cm: CatalogOutcome): Reply
  {
    match CheckAuth(authorized, req.cmd)
    case Failed(e) => Reply(Failed(e), c, [])
    case Ok => Run(v, req, c, lock, cm)
  }
}
