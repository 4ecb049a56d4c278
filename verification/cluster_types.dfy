/**
 * Vocabulary shared by the model of the `_configsvrEnableSharding` command:
 * database records of `config.databases`, the error codes the command can
 * surface, node roles, and the validators the command treats as black boxes.
 */
module ClusterTypes {

  /** An optional command field or search result: absent, or present with its value. */
  datatype Option<+T> = None | Some(value: T)

  type DbName = string
  type ShardId = string

  /**
   * One document of `config.databases`. The database name is the document's
   * `_id`, so a well-formed collection holds at most one record per name.
   */
  datatype DatabaseRecord = DatabaseRecord(name: DbName, primary: ShardId, sharded: bool)

  /**
   * Error codes. The first five are raised by the command itself; the rest
   * stand for whatever the lock manager or the catalog manager report.
   */
  datatype ErrorCode =
    | Unauthorized
    | IllegalOperation
    | InvalidOptions
    | BadValue
    | InvalidNamespace
    | LockBusy
    | ShardNotFound
    | OtherError(name: string)

  /** The role this node was started with. */
  datatype ClusterRole = NoRole | ShardServer | ConfigServer

  /** The write concern `w` mode the command insists on. */
  const Majority: string := "majority"

  /** The two databases that can never be sharded. */
  const AdminDb: DbName := "admin"
  const LocalDb: DbName := "local"

  /** The name carried by a default-constructed shard id. */
  const DefaultShardId: ShardId := ""

  /**
   * The name checks the command delegates elsewhere, kept uninterpreted:
   * database-name validation (with `$` allowed) and shard-id validity.
   */
  datatype Validators = Validators(validDbName: DbName -> bool, validShardId: ShardId -> bool)

  /** The one fact the command relies on: a default shard id is not valid. */
  predicate WellFormed(v: Validators) {
    !v.validShardId(DefaultShardId)
  }
}
