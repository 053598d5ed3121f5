/** The collaborators the backup/restore code talks to, as one object whose
    fields they update: the site's Redis, the readonly switch, Sidekiq's job
    sets and the database catalog, plus the configuration the code reads. */
module Environment {
  import opened SidekiqJobs
  import opened Schemas

  /** The Redis key names the backup code uses but does not define itself:
      Sidekiq's pause key, the operation-running key, the shutdown-signal key,
      and the list `BackupRestore.redis_keys`. */
  datatype KeyNames = KeyNames(paused: string, operationRunning: string, shutdownSignal: string, backupKeys: set<string>)
  {
    /** The three flags are stored under distinct keys, and the shutdown
        signal is one of `redis_keys`. */
    predicate Valid() {
      paused != operationRunning && paused != shutdownSignal && operationRunning != shutdownSignal
      && shutdownSignal in backupKeys
    }
  }

  class Host {
    const keys: KeyNames
    /** `database_configuration.username`: the role whose objects the schema move moves. */
    const dbUsername: string
    /** `Rails.env.development?` */
    const development: bool
    /** `SiteSetting.allow_restore` */
    const allowRestoreSetting: bool

    /** `Discourse.readonly_mode?` */
    var readonly: bool
    var redis: map<string, string>
    var queues: seq<Queue>
    var retrySet: seq<Job>
    var scheduledSet: seq<Job>
    var deadSet: seq<Job>
    var catalog: Catalog

    /** Not part of the system: a fresh site with an empty Redis and only the
        `public` schema, which shows that a `Host` can be built. */
    constructor (keys: KeyNames, dbUsername: string, development: bool, allowRestoreSetting: bool)
      ensures this.keys == keys && this.dbUsername == dbUsername
      ensures this.development == development && this.allowRestoreSetting == allowRestoreSetting
      ensures !readonly && redis == map[] && queues == [] && retrySet == [] && scheduledSet == [] && deadSet == []
      ensures catalog == Catalog({PublicSchema}, map[])
    {
      this.keys := keys;
      this.dbUsername := dbUsername;
      this.development := development;
      this.allowRestoreSetting := allowRestoreSetting;
      readonly := false;
      redis := map[];
      queues, retrySet, scheduledSet, deadSet := [], [], [], [];
      catalog := Catalog({PublicSchema}, map[]);
    }

    /** `Sidekiq.paused?`: the pause key holds a reason. */
    predicate SidekiqPaused()
      reads this
    {
      keys.paused in redis
    }

    /** `BackupRestore.is_operation_running?` */
    predicate OperationRunning()
      reads this
    {
      keys.operationRunning in redis
    }

    /** `BackupRestore.should_shutdown?` */
    predicate ShutdownRequested()
      reads this
    {
      keys.shutdownSignal in redis
    }
  }
}
