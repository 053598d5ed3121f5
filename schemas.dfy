/** The part of the PostgreSQL catalog that `move_tables_between_schemas`
    reads and writes: the schemas that exist and, for every table, view and
    enum type, its owner. The module gives the meaning of the move as a
    function on catalogs and proves what the move does and leaves alone. */
module Schemas {
  import opened Outcomes

  datatype Kind = Table | View | EnumType

  /** The order in which the three loops of the move visit the kinds. */
  function Rank(k: Kind): nat {
    match k
    case Table => 0
    case View => 1
    case EnumType => 2
  }

  datatype ObjectKey = ObjectKey(kind: Kind, schema: string, name: string)

  datatype Catalog = Catalog(schemas: set<string>, owners: map<ObjectKey, string>)

  /** The statements the move executes, without their SQL text. */
  datatype Ddl =
    | CreateSchemaIfNotExists(schema: string)
    | DropIfExists(kind: Kind, schema: string, name: string)
    | SetSchema(kind: Kind, schema: string, name: string, newSchema: string)

  const BackupSchema := "backup"
  const PublicSchema := "public"

  /** Every object lives in a schema that exists. */
  predicate WellFormed(c: Catalog) {
    forall k :: k in c.owners ==> k.schema in c.schemas
  }

  /** The rows a loop of the move selects: names of the objects of one kind in
      `schema` owned by `owner`. */
  function OwnedNames(owners: map<ObjectKey, string>, kind: Kind, schema: string, owner: string): (names: set<string>)
    ensures forall n :: n in names <==> ObjectKey(kind, schema, n) in owners && owners[ObjectKey(kind, schema, n)] == owner
  {
    set k | k in owners && k.kind == kind && k.schema == schema && owners[k] == owner :: k.name
  }

  /** `owners` after the objects of `kind` named `names` went from `source` to
      `destination`, each replacing any same-named object of that kind there. */
  function MoveNames(owners: map<ObjectKey, string>, kind: Kind, source: string, destination: string, names: set<string>)
    : map<ObjectKey, string>
    requires source != destination
    requires forall n :: n in names ==> ObjectKey(kind, source, n) in owners
  {
    var leaving := set n | n in names :: ObjectKey(kind, source, n);
    var arriving := set n | n in names :: ObjectKey(kind, destination, n);
    map k | k in (owners.Keys - leaving) + arriving ::
      if k in arriving then owners[ObjectKey(kind, source, k.name)] else owners[k]
  }

  /** What one loop of the move does to the catalog. */
  function MoveKind(c: Catalog, kind: Kind, source: string, destination: string, owner: string): Catalog
    requires source != destination
  {
    c.(owners := MoveNames(c.owners, kind, source, destination, OwnedNames(c.owners, kind, source, owner)))
  }

  /** Some table, view or enum type in `schema` is owned by `owner`. */
  predicate HasOwnedObjects(c: Catalog, schema: string, owner: string) {
    exists k :: k in c.owners && k.schema == schema && c.owners[k] == owner
  }

  /** The whole move as one transaction: `None` when PostgreSQL raises. Within
      this catalog (no privilege checks) that happens exactly when source and
      destination are the same schema and it holds an owned object: the DROP
      removes it, then the ALTER finds nothing to move. On success the
      destination schema exists and no other schema appears or disappears. */
  function SchemaMove(c: Catalog, source: string, destination: string, owner: string): (r: Option<Catalog>)
    ensures r.None? <==> source == destination && HasOwnedObjects(c, source, owner)
    ensures r.Some? ==> r.value.schemas == c.schemas + {destination}
  {
    var created := c.(schemas := c.schemas + {destination});
    if source == destination then
      if HasOwnedObjects(c, source, owner) then None else Some(created)
    else
      var tables := MoveKind(created, Table, source, destination, owner);
      var views := MoveKind(tables, View, source, destination, owner);
      Some(MoveKind(views, EnumType, source, destination, owner))
  }

  /** Where a key stands after one loop: everything is spelled out. */
  lemma MoveNamesAt(owners: map<ObjectKey, string>, kind: Kind, source: string, destination: string,
                    names: set<string>, k: ObjectKey)
    requires source != destination
    requires forall n :: n in names ==> ObjectKey(kind, source, n) in owners
    ensures var moved := MoveNames(owners, kind, source, destination, names);
      if k.kind == kind && k.schema == destination && k.name in names then
        k in moved && moved[k] == owners[ObjectKey(kind, source, k.name)]
      else if k.kind == kind && k.schema == source && k.name in names then
        k !in moved
      else
        (k in moved <==> k in owners) && (k in moved ==> moved[k] == owners[k])
  {
    var leaving := set n | n in names :: ObjectKey(kind, source, n);
    var arriving := set n | n in names :: ObjectKey(kind, destination, n);
    if k.kind == kind && k.schema == destination && k.name in names {
      assert k in arriving;
    } else if k.kind == kind && k.schema == source && k.name in names {
      assert k in leaving;
      assert k !in arriving;
    } else {
      assert k !in leaving && k !in arriving;
    }
  }

  /** One iteration of a loop: after the DROP of the destination name the
      source object is still there, and the ALTER that moves it extends the
      moved set by one name. */
  lemma MoveNamesStep(owners: map<ObjectKey, string>, kind: Kind, source: string, destination: string,
                      done: set<string>, n: string)
    requires source != destination && n !in done
    requires forall m :: m in done + {n} ==> ObjectKey(kind, source, m) in owners
    ensures var before := MoveNames(owners, kind, source, destination, done);
      var src := ObjectKey(kind, source, n);
      var dst := ObjectKey(kind, destination, n);
      var dropped := before - {dst};
      src in dropped
      && (dropped - {src})[dst := dropped[src]] == MoveNames(owners, kind, source, destination, done + {n})
  {
    var before := MoveNames(owners, kind, source, destination, done);
    var src := ObjectKey(kind, source, n);
    var dst := ObjectKey(kind, destination, n);
    MoveNamesAt(owners, kind, source, destination, done, src);
    var dropped := before - {dst};
    var after := (dropped - {src})[dst := dropped[src]];
    var expected := MoveNames(owners, kind, source, destination, done + {n});
    forall k ensures (k in after <==> k in expected) && (k in after ==> after[k] == expected[k]) {
      MoveNamesAt(owners, kind, source, destination, done, k);
      MoveNamesAt(owners, kind, source, destination, done + {n}, k);
    }
    assert after == expected;
  }

  /** An owned object exists in `schema` exactly when one of the three loops
      selects a row. */
  lemma HasOwnedObjectsByKind(c: Catalog, schema: string, owner: string)
    ensures HasOwnedObjects(c, schema, owner) <==>
      OwnedNames(c.owners, Table, schema, owner) != {} || OwnedNames(c.owners, View, schema, owner) != {}
      || OwnedNames(c.owners, EnumType, schema, owner) != {}
  {
    if HasOwnedObjects(c, schema, owner) {
      var k :| k in c.owners && k.schema == schema && c.owners[k] == owner;
      assert k == ObjectKey(k.kind, schema, k.name);
      assert k.name in OwnedNames(c.owners, k.kind, schema, owner);
    }
  }

  /** The names of the objects of `kind` that a list of executed statements
      moved with `SET SCHEMA`. */
  function MovedNames(executed: seq<Ddl>, kind: Kind): set<string> {
    if executed == [] then {}
    else
      var last := executed[|executed| - 1];
      MovedNames(executed[..|executed| - 1], kind)
      + (if last.SetSchema? && last.kind == kind then {last.name} else {})
  }

  lemma {:induction false} MovedNamesAppend(a: seq<Ddl>, b: seq<Ddl>, kind: Kind)
    ensures MovedNames(a + b, kind) == MovedNames(a, kind) + MovedNames(b, kind)
    decreases |b|
  {
    if b == [] {
      assert a + b == a;
    } else {
      var b' := b[..|b| - 1];
      assert (a + b)[..|a + b| - 1] == a + b';
      MovedNamesAppend(a, b', kind);
    }
  }

  /** The statements one loop of the move runs: only `kind`, and each SET
      SCHEMA from `source` to `destination` right after the DROP of the
      same-named object in `destination`. */
  predicate LoopTrace(executed: seq<Ddl>, kind: Kind, source: string, destination: string)
  {
    && (forall i :: 0 <= i < |executed| ==> !executed[i].CreateSchemaIfNotExists? && executed[i].kind == kind)
    && (forall i :: 0 <= i < |executed| && executed[i].SetSchema? ==>
          i > 0 && executed[i - 1] == DropIfExists(kind, destination, executed[i].name)
          && executed[i].schema == source && executed[i].newSchema == destination)
  }

  /** One loop iteration adds a DROP, which moves nothing, and a SET SCHEMA,
      which moves its name; both keep the shape of the trace. */
  lemma MovedNamesStep(executed: seq<Ddl>, kind: Kind, source: string, destination: string, n: string)
    requires LoopTrace(executed, kind, source, destination)
    ensures LoopTrace(executed + [DropIfExists(kind, destination, n)], kind, source, destination)
    ensures LoopTrace(executed + [DropIfExists(kind, destination, n)] + [SetSchema(kind, source, n, destination)], kind, source, destination)
    ensures MovedNames(executed + [DropIfExists(kind, destination, n)], kind) == MovedNames(executed, kind)
    ensures MovedNames(executed + [DropIfExists(kind, destination, n)] + [SetSchema(kind, source, n, destination)], kind)
         == MovedNames(executed, kind) + {n}
  {
    var dropped := executed + [DropIfExists(kind, destination, n)];
    assert dropped[..|dropped| - 1] == executed;
    var moved := dropped + [SetSchema(kind, source, n, destination)];
    assert moved[..|moved| - 1] == dropped;
  }

  /** Statements of one loop move nothing of another kind. */
  lemma {:induction false} MovedNamesOtherKind(executed: seq<Ddl>, kind: Kind, other: Kind)
    requires kind != other
    requires forall i :: 0 <= i < |executed| ==> !executed[i].CreateSchemaIfNotExists? && executed[i].kind == kind
    ensures MovedNames(executed, other) == {}
  {
    if executed != [] {
      MovedNamesOtherKind(executed[..|executed| - 1], kind, other);
    }
  }

  /** The statements of the whole move, up to any loop that stopped it: the
      CREATE SCHEMA first and only there, the kinds in loop order, and each
      SET SCHEMA right after the DROP of its name in `destination`. */
  lemma MoveTraceShape(source: string, destination: string, tables: seq<Ddl>, views: seq<Ddl>, enums: seq<Ddl>)
    requires LoopTrace(tables, Table, source, destination)
    requires LoopTrace(views, View, source, destination)
    requires LoopTrace(enums, EnumType, source, destination)
    ensures var executed := [CreateSchemaIfNotExists(destination)] + tables + views + enums;
      && |executed| > 0 && executed[0] == CreateSchemaIfNotExists(destination)
      && (forall i :: 1 <= i < |executed| ==> !executed[i].CreateSchemaIfNotExists?)
      && (forall i, j :: 1 <= i < j < |executed| ==> Rank(executed[i].kind) <= Rank(executed[j].kind))
      && (forall i :: 0 <= i < |executed| && executed[i].SetSchema? ==>
            i > 0 && executed[i - 1] == DropIfExists(executed[i].kind, destination, executed[i].name)
            && executed[i].schema == source && executed[i].newSchema == destination)
  {
    var executed := [CreateSchemaIfNotExists(destination)] + tables + views + enums;
    var a, b := 1 + |tables|, 1 + |tables| + |views|;
    assert forall i :: 1 <= i < a ==> executed[i] == tables[i - 1];
    assert forall i :: a <= i < b ==> executed[i] == views[i - a];
    assert forall i :: b <= i < |executed| ==> executed[i] == enums[i - b];
  }

  /** The whole move's statements: CREATE SCHEMA, then the table, view and
      enum loops; each kind is moved by its own loop only. */
  lemma MovedNamesOfMove(destination: string, tables: seq<Ddl>, views: seq<Ddl>, enums: seq<Ddl>, kind: Kind)
    requires forall i :: 0 <= i < |tables| ==> !tables[i].CreateSchemaIfNotExists? && tables[i].kind == Table
    requires forall i :: 0 <= i < |views| ==> !views[i].CreateSchemaIfNotExists? && views[i].kind == View
    requires forall i :: 0 <= i < |enums| ==> !enums[i].CreateSchemaIfNotExists? && enums[i].kind == EnumType
    ensures MovedNames([CreateSchemaIfNotExists(destination)] + tables + views + enums, kind)
         == match kind
            case Table => MovedNames(tables, Table)
            case View => MovedNames(views, View)
            case EnumType => MovedNames(enums, EnumType)
  {
    var create := [CreateSchemaIfNotExists(destination)];
    MovedNamesAppend(create, tables, kind);
    MovedNamesAppend(create + tables, views, kind);
    MovedNamesAppend(create + tables + views, enums, kind);
    assert create[..0] == [];
    match kind {
      case Table =>
        MovedNamesOtherKind(views, View, Table);
        MovedNamesOtherKind(enums, EnumType, Table);
      case View =>
        MovedNamesOtherKind(tables, Table, View);
        MovedNamesOtherKind(enums, EnumType, View);
      case EnumType =>
        MovedNamesOtherKind(tables, Table, EnumType);
        MovedNamesOtherKind(views, View, EnumType);
    }
  }

  /** One loop of the move leaves the rows the other loops select unchanged. */
  lemma MoveKindKeepsSelection(c: Catalog, kind: Kind, other: Kind, source: string, destination: string, owner: string)
    requires source != destination && kind != other
    ensures OwnedNames(MoveKind(c, kind, source, destination, owner).owners, other, source, owner)
         == OwnedNames(c.owners, other, source, owner)
  {
    var m := MoveKind(c, kind, source, destination, owner);
    forall n ensures n in OwnedNames(m.owners, other, source, owner) <==> n in OwnedNames(c.owners, other, source, owner) {
      MoveKindOtherKinds(c, kind, source, destination, owner, ObjectKey(other, source, n));
    }
  }

  /** One loop of the move leaves the objects of the other kinds alone, so the
      later loops select what they would have selected before it. */
  lemma MoveKindOtherKinds(c: Catalog, kind: Kind, source: string, destination: string, owner: string, k: ObjectKey)
    requires source != destination
    requires k.kind != kind
    ensures var m := MoveKind(c, kind, source, destination, owner);
      m.schemas == c.schemas && (k in m.owners <==> k in c.owners) && (k in c.owners ==> m.owners[k] == c.owners[k])
  {
    MoveNamesAt(c.owners, kind, source, destination, OwnedNames(c.owners, kind, source, owner), k);
  }

  lemma MoveKindSameKind(c: Catalog, kind: Kind, source: string, destination: string, owner: string, k: ObjectKey)
    requires source != destination
    requires k.kind == kind
    ensures var m := MoveKind(c, kind, source, destination, owner);
      var owned := OwnedNames(c.owners, kind, source, owner);
      if k.schema == destination && k.name in owned then k in m.owners && m.owners[k] == owner
      else if k.schema == source && k.name in owned then k !in m.owners
      else (k in m.owners <==> k in c.owners) && (k in c.owners ==> m.owners[k] == c.owners[k])
  {
    MoveNamesAt(c.owners, kind, source, destination, OwnedNames(c.owners, kind, source, owner), k);
  }

  /** The three loops combined, key by key: the effect on `k` is that of the
      loop for `k.kind`, computed on the catalog as it was before the move. */
  lemma SchemaMoveAt(c: Catalog, source: string, destination: string, owner: string, k: ObjectKey)
    requires source != destination
    ensures var r := SchemaMove(c, source, destination, owner).value;
      var owned := OwnedNames(c.owners, k.kind, source, owner);
      r.schemas == c.schemas + {destination} &&
      if k.schema == destination && k.name in owned then k in r.owners && r.owners[k] == owner
      else if k.schema == source && k.name in owned then k !in r.owners
      else (k in r.owners <==> k in c.owners) && (k in c.owners ==> r.owners[k] == c.owners[k])
  {
    var created := c.(schemas := c.schemas + {destination});
    var tables := MoveKind(created, Table, source, destination, owner);
    var views := MoveKind(tables, View, source, destination, owner);
    var enums := MoveKind(views, EnumType, source, destination, owner);
    // The rows a later loop selects are the rows it would have selected on `created`.
    MoveKindKeepsSelection(created, Table, View, source, destination, owner);
    MoveKindKeepsSelection(created, Table, EnumType, source, destination, owner);
    MoveKindKeepsSelection(tables, View, EnumType, source, destination, owner);
    match k.kind {
      case Table =>
        MoveKindSameKind(created, Table, source, destination, owner, k);
        MoveKindOtherKinds(tables, View, source, destination, owner, k);
        MoveKindOtherKinds(views, EnumType, source, destination, owner, k);
      case View =>
        MoveKindOtherKinds(created, Table, source, destination, owner, k);
        MoveKindSameKind(tables, View, source, destination, owner, k);
        MoveKindOtherKinds(views, EnumType, source, destination, owner, k);
      case EnumType =>
        MoveKindOtherKinds(created, Table, source, destination, owner, k);
        MoveKindOtherKinds(tables, View, source, destination, owner, k);
        MoveKindSameKind(views, EnumType, source, destination, owner, k);
    }
  }

  /** Every owned table, view and enum type of `source` is in `destination`
      afterwards, under the same name and owner, and no longer in `source`. */
  lemma SchemaMoveMovesOwned(c: Catalog, source: string, destination: string, owner: string, k: ObjectKey)
    requires source != destination
    requires k in c.owners && k.schema == source && c.owners[k] == owner
    ensures var r := SchemaMove(c, source, destination, owner).value;
      k !in r.owners && ObjectKey(k.kind, destination, k.name) in r.owners
      && r.owners[ObjectKey(k.kind, destination, k.name)] == owner
  {
    SchemaMoveAt(c, source, destination, owner, k);
    SchemaMoveAt(c, source, destination, owner, ObjectKey(k.kind, destination, k.name));
  }

  /** After the move `source` holds nothing owned by `owner`. */
  lemma SchemaMoveEmptiesSource(c: Catalog, source: string, destination: string, owner: string)
    requires source != destination
    ensures !HasOwnedObjects(SchemaMove(c, source, destination, owner).value, source, owner)
  {
    var r := SchemaMove(c, source, destination, owner).value;
    forall k | k in r.owners && k.schema == source
      ensures r.owners[k] != owner
    {
      SchemaMoveAt(c, source, destination, owner, k);
    }
  }

  /** Nothing else changes: objects of `source` owned by someone else, objects
      of `destination` whose name does not collide with a moved object of the
      same kind, and every object of every other schema keep their place and
      owner; no object appears that was not there or moved there. */
  lemma SchemaMoveLeavesOthers(c: Catalog, source: string, destination: string, owner: string, k: ObjectKey)
    requires source != destination
    requires !(k.schema == source && k in c.owners && c.owners[k] == owner)
    requires !(k.schema == destination && ObjectKey(k.kind, source, k.name) in c.owners
               && c.owners[ObjectKey(k.kind, source, k.name)] == owner)
    ensures var r := SchemaMove(c, source, destination, owner).value;
      (k in r.owners <==> k in c.owners) && (k in c.owners ==> r.owners[k] == c.owners[k])
  {
    SchemaMoveAt(c, source, destination, owner, k);
  }

  /** The move keeps every object inside an existing schema. */
  lemma SchemaMoveWellFormed(c: Catalog, source: string, destination: string, owner: string)
    requires WellFormed(c)
    ensures SchemaMove(c, source, destination, owner).Some? ==> WellFormed(SchemaMove(c, source, destination, owner).value)
  {
    if source != destination {
      var r := SchemaMove(c, source, destination, owner).value;
      forall k | k in r.owners ensures k.schema in r.schemas {
        SchemaMoveAt(c, source, destination, owner, k);
      }
    }
  }

  /** The rows `information_schema.tables` lists for schema `backup`: its
      tables and views, whoever owns them. */
  function BackupRelations(c: Catalog): set<ObjectKey> {
    set k | k in c.owners && k.schema == BackupSchema && k.kind != EnumType
  }

  /** `backup_tables_count`. */
  function BackupTablesCount(c: Catalog): (n: nat)
    ensures n == 0 <==> forall k :: k in c.owners && k.schema == BackupSchema ==> k.kind == EnumType
  {
    BackupRelationsCounted(c);
    |BackupRelations(c)|
  }

  lemma BackupRelationsCounted(c: Catalog)
    ensures |BackupRelations(c)| == 0 <==> forall k :: k in c.owners && k.schema == BackupSchema ==> k.kind == EnumType
  {
    if exists k :: k in c.owners && k.schema == BackupSchema && k.kind != EnumType {
      var k :| k in c.owners && k.schema == BackupSchema && k.kind != EnumType;
      assert k in BackupRelations(c);
    }
  }

  /** `can_rollback?`: the backup schema holds at least one table or view. */
  function CanRollback(c: Catalog): (b: bool)
    ensures b <==> exists k :: k in c.owners && k.schema == BackupSchema && k.kind != EnumType
  {
    BackupTablesCount(c) > 0
  }

  /** After a rollback move whose owner owns every table and view of `backup`,
      `can_rollback?` is false. */
  lemma RollbackEmptiesBackup(c: Catalog, owner: string)
    requires forall k :: k in c.owners && k.schema == BackupSchema && k.kind != EnumType ==> c.owners[k] == owner
    ensures !CanRollback(SchemaMove(c, BackupSchema, PublicSchema, owner).value)
  {
    var r := SchemaMove(c, BackupSchema, PublicSchema, owner).value;
    forall k | k in r.owners && k.schema == BackupSchema
      ensures k.kind == EnumType
    {
      SchemaMoveAt(c, BackupSchema, PublicSchema, owner, k);
    }
  }

  /** A table or view of `backup` owned by another role is not moved, so
      `can_rollback?` stays true after the rollback move. */
  lemma RollbackKeepsForeignBackupTables(c: Catalog, owner: string, k: ObjectKey)
    requires k in c.owners && k.schema == BackupSchema && k.kind != EnumType && c.owners[k] != owner
    ensures CanRollback(SchemaMove(c, BackupSchema, PublicSchema, owner).value)
  {
    SchemaMoveAt(c, BackupSchema, PublicSchema, owner, k);
  }
}
