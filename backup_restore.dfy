/** The module functions of `BackupRestore` that coordinate an operation:
    rollback, cancellation, the status report and the schema move both the
    restore and the rollback use. */
module BackupRestore {
  import opened Outcomes
  import opened Schemas
  import opened Environment

  /** `operations_status` */
  datatype Status = Status(isOperationRunning: bool, canRollback: bool, allowRestore: bool)

  /** `operations_status`: the running flag and `can_rollback?` as they are,
      and restores allowed in development or when the site setting allows them. */
  function OperationsStatus(host: Host): (s: Status)
    reads host
    ensures s.isOperationRunning <==> host.keys.operationRunning in host.redis
    ensures s.canRollback <==> exists k :: k in host.catalog.owners && k.schema == BackupSchema && k.kind != EnumType
    ensures s.allowRestore <==> host.development || host.allowRestoreSetting
  {
    Status(host.OperationRunning(), CanRollback(host.catalog), host.development || host.allowRestoreSetting)
  }

  /** `cancel!`: raises the shutdown signal and answers true; no other key changes. */
  method Cancel(host: Host) returns (r: bool)
    requires host.keys.Valid()
    modifies host`redis
    ensures r && host.ShutdownRequested()
    ensures forall k :: k != host.keys.shutdownSignal ==>
      (k in host.redis <==> k in old(host.redis)) && (k in host.redis ==> host.redis[k] == old(host.redis)[k])
    ensures OperationsStatus(host) == old(OperationsStatus(host))
  {
    host.redis := host.redis[host.keys.shutdownSignal := "1"];
    r := true;
  }

  /** One `FOR row IN SELECT ... LOOP` of the move, run on the transaction's
      view `c` of the catalog: selects the owned objects of `kind` in `source`,
      then for each drops the same-named object of `destination` and moves it
      there. `None` when an ALTER finds no object to move. */
  method MoveKindLoop(c: Catalog, kind: Kind, source: string, destination: string, owner: string)
    returns (r: Option<Catalog>, executed: seq<Ddl>)
    ensures r.None? <==> source == destination && OwnedNames(c.owners, kind, source, owner) != {}
    ensures r.Some? && source != destination ==> r.value == MoveKind(c, kind, source, destination, owner)
    ensures r.Some? && source == destination ==> r.value == c
    ensures LoopTrace(executed, kind, source, destination)
    ensures r.Some? ==> MovedNames(executed, kind) == OwnedNames(c.owners, kind, source, owner)
  {
    var names := OwnedNames(c.owners, kind, source, owner);
    var owners := c.owners;
    var remaining := names;
    executed := [];
    while remaining != {}
      invariant remaining <= names
      invariant source == destination ==> remaining == names && owners == c.owners
      invariant source != destination ==> owners == MoveNames(c.owners, kind, source, destination, names - remaining)
      invariant LoopTrace(executed, kind, source, destination)
      invariant MovedNames(executed, kind) == names - remaining
      decreases remaining
    {
      var n :| n in remaining;
      var src := ObjectKey(kind, source, n);
      var dst := ObjectKey(kind, destination, n);
      if source != destination {
        MoveNamesStep(c.owners, kind, source, destination, names - remaining, n);
      }
      MovedNamesStep(executed, kind, source, destination, n);
      executed := executed + [DropIfExists(kind, destination, n)];
      owners := owners - {dst};
      if src !in owners {
        return None, executed;
      }
      executed := executed + [SetSchema(kind, source, n, destination)];
      owners := (owners - {src})[dst := owners[src]];
      assert names - (remaining - {n}) == (names - remaining) + {n};
      remaining := remaining - {n};
    }
    assert names - remaining == names;
    r := Some(c.(owners := owners));
  }

  /** `move_tables_between_schemas` inside its transaction: creates the
      destination schema, runs the table, view and enum loops in that order,
      and commits the result as one update; when a statement raises, the
      catalog is left as it was. `executed` lists the statements run. */
  method MoveTablesBetweenSchemas(host: Host, source: string, destination: string)
    returns (r: Outcome, executed: seq<Ddl>)
    modifies host`catalog
    ensures SchemaMove(old(host.catalog), source, destination, host.dbUsername).Some? ==>
      r == Done && host.catalog == SchemaMove(old(host.catalog), source, destination, host.dbUsername).value
    ensures SchemaMove(old(host.catalog), source, destination, host.dbUsername).None? ==>
      r == Failed(StatementError) && host.catalog == old(host.catalog)
    ensures |executed| > 0 && executed[0] == CreateSchemaIfNotExists(destination)
    ensures forall i :: 1 <= i < |executed| ==> !executed[i].CreateSchemaIfNotExists?
    ensures forall i, j :: 1 <= i < j < |executed| ==> Rank(executed[i].kind) <= Rank(executed[j].kind)
    ensures forall i :: 0 <= i < |executed| && executed[i].SetSchema? ==>
      i > 0 && executed[i - 1] == DropIfExists(executed[i].kind, destination, executed[i].name)
      && executed[i].schema == source && executed[i].newSchema == destination
    ensures r == Done ==> forall kind: Kind ::
      MovedNames(executed, kind) == OwnedNames(old(host.catalog.owners), kind, source, host.dbUsername)
  {
    var owner := host.dbUsername;
    ghost var start := host.catalog;
    HasOwnedObjectsByKind(start, source, owner);
    var created := host.catalog.(schemas := host.catalog.schemas + {destination});
    executed := [CreateSchemaIfNotExists(destination)];

    var tables, tableStatements := MoveKindLoop(created, Table, source, destination, owner);
    executed := executed + tableStatements;
    MoveTraceShape(source, destination, tableStatements, [], []);
    // The trace so far in `MoveTraceShape`'s `tables + views + enums` form, with no views or enums yet.
    assert executed == executed + [] + [];
    if tables.None? {
      return Failed(StatementError), executed;
    }
    var views, viewStatements := MoveKindLoop(tables.value, View, source, destination, owner);
    executed := executed + viewStatements;
    MoveTraceShape(source, destination, tableStatements, viewStatements, []);
    // The trace so far in `MoveTraceShape`'s `tables + views + enums` form, with no enums yet.
    assert executed == executed + [];
    if views.None? {
      return Failed(StatementError), executed;
    }
    var enums, enumStatements := MoveKindLoop(views.value, EnumType, source, destination, owner);
    executed := executed + enumStatements;
    MoveTraceShape(source, destination, tableStatements, viewStatements, enumStatements);
    if enums.None? {
      return Failed(StatementError), executed;
    }
    host.catalog := enums.value;
    r := Done;
    // Each loop selected, on the catalog it ran on, what it would have selected before the move.
    if source != destination {
      MoveKindKeepsSelection(created, Table, View, source, destination, owner);
      MoveKindKeepsSelection(created, Table, EnumType, source, destination, owner);
      MoveKindKeepsSelection(tables.value, View, EnumType, source, destination, owner);
    }
    forall kind: Kind
      ensures MovedNames(executed, kind) == OwnedNames(start.owners, kind, source, owner)
    {
      MovedNamesOfMove(destination, tableStatements, viewStatements, enumStatements, kind);
    }
  }

  /** `rollback!`: refuses while an operation runs; otherwise moves `backup`
      back into `public` when `can_rollback?` holds and does nothing when it
      does not. */
  method Rollback(host: Host) returns (r: Outcome)
    modifies host`catalog
    ensures old(host.OperationRunning()) ==> r == Failed(OperationRunningError) && host.catalog == old(host.catalog)
    ensures !old(host.OperationRunning()) && !CanRollback(old(host.catalog)) ==>
      r == Done && host.catalog == old(host.catalog)
    ensures !old(host.OperationRunning()) && CanRollback(old(host.catalog)) ==>
      r == Done && host.catalog == SchemaMove(old(host.catalog), BackupSchema, PublicSchema, host.dbUsername).value
    ensures !old(host.OperationRunning()) && CanRollback(old(host.catalog))
      && (forall k :: k in old(host.catalog.owners) && k.schema == BackupSchema && k.kind != EnumType ==>
            old(host.catalog.owners)[k] == host.dbUsername)
      ==> !CanRollback(host.catalog)
  {
    if host.OperationRunning() {
      return Failed(OperationRunningError);
    }
    r := Done;
    if CanRollback(host.catalog) {
      ghost var start := host.catalog;
      if forall k :: k in start.owners && k.schema == BackupSchema && k.kind != EnumType ==> start.owners[k] == host.dbUsername {
        RollbackEmptiesBackup(start, host.dbUsername);
      }
      var executed;
      r, executed := MoveTablesBetweenSchemas(host, BackupSchema, PublicSchema);
    }
  }
}
