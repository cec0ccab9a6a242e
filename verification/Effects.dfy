/** What statements and shipped scripts do to the rows of a database, cell by cell. */
module Effects {
  import opened Strings
  import opened TypeRefs
  import opened Sql
  import opened Replay
  import opened Scripts
  import opened Completion
  import opened Deaths

  /** Nothing but table t has changed, and t was and is there. */
  ghost predicate Only(d: Db, d': Db, t: TableName) {
    t in d && t in d' && forall u | u != t :: Get(d', u) == Get(d, u)
  }

  /** The table keeps its key and the keys of its rows. */
  ghost predicate KeepsRows(t: Table, t': Table) { t'.key == t.key && t'.rows.Keys == t.rows.Keys }

  /** The row, with the column filled in when the table did not have it. */
  function Filled(columns: seq<Column>, c: string, v: Value, row: Row): Row {
    if c in Names(columns) then row else row[c := v]
  }

  function WithColumn(columns: seq<Column>, c: Column): seq<Column> {
    if c.name in Names(columns) then columns else columns + [c]
  }

  lemma WithColumnNames(columns: seq<Column>, c: Column)
    ensures Names(WithColumn(columns, c)) == Names(columns) + {c.name}
  {
    AppendNames(columns, c);
  }

  // ---- Single statements ----

  /** ADD COLUMN IF NOT EXISTS keeps all rows and all their cells. A column that was missing gets its
      default in every row. */
  lemma AddsColumn(d: Db, d': Db, t: TableName, c: Column)
    requires Exec(AddColumn(t, c), d) == Some(d')
    ensures Only(d, d', t) && KeepsRows(d[t], d'[t]) && d'[t].columns == WithColumn(d[t].columns, c)
    ensures forall k | k in d[t].rows :: d'[t].rows[k] == Filled(d[t].columns, c.name, c.initial, d[t].rows[k])
  {
    hide Names;
  }

  /** UPDATE keeps all rows and all cells but the assigned ones of the rows that meet the condition. */
  lemma Updates(d: Db, d': Db, t: TableName, sets: seq<Assign>, cond: Cond)
    requires Exec(Update(t, sets, cond), d) == Some(d')
    ensures Only(d, d', t) && KeepsRows(d[t], d'[t]) && d'[t].columns == d[t].columns
    ensures forall k | k in d[t].rows ::
      var row := d[t].rows[k];
      d'[t].rows[k] == if Eval(cond, row) == Yes then row + Delta(sets, row) else row
  {
    hide Names, Mentions, SetCols, Delta, Eval;
  }

  lemma OneLiteral(c: string, v: Value, row: Row)
    ensures row + Delta([Assign(c, Lit(v))], row) == row[c := v]
  {
    var sets := [Assign(c, Lit(v))];
    assert sets[1..] == [] && Delta(sets[1..], row) == map[];
  }

  /** UPDATE t SET c = v WHERE a = x. */
  lemma SetsWhere(d: Db, d': Db, t: TableName, c: string, v: Value, a: string, x: Value)
    requires x != Null && Exec(Update(t, [Assign(c, Lit(v))], Eq(a, x)), d) == Some(d')
    ensures Only(d, d', t) && KeepsRows(d[t], d'[t]) && d'[t].columns == d[t].columns
    ensures forall k | k in d[t].rows ::
      d'[t].rows[k] == if Cell(d[t].rows[k], a) == x then d[t].rows[k][c := v] else d[t].rows[k]
  {
    var sets := [Assign(c, Lit(v))];
    hide Delta, Exec;
    Updates(d, d', t, sets, Eq(a, x));
    forall k | k in d[t].rows
      ensures d'[t].rows[k] == if Cell(d[t].rows[k], a) == x then d[t].rows[k][c := v] else d[t].rows[k]
    {
      OneLiteral(c, v, d[t].rows[k]);
    }
  }

  /** The table after an insert of a row under key k: a row that is there stays as it is, a missing one
      is added, and all others stay. */
  ghost predicate Inserted(t: Table, t': Table, k: seq<Value>, row: Row) {
    && t'.columns == t.columns && t'.key == t.key
    && t'.rows == if k in t.rows then t.rows else t.rows[k := row]
  }

  lemma {:induction false} NoDefaults(columns: seq<Column>, row: Row)
    requires Names(columns) <= row.Keys
    ensures Defaults(columns) + row == row
  {
    DefaultKeys(columns);
  }

  lemma InsertsRow(t: TableName, table: Table, row: Row)
    requires ActOn(Insert(t, row), table).Some? && Names(table.columns) == row.Keys
    ensures Inserted(table, ActOn(Insert(t, row), table).value, KeyOf(table.key, row), row)
  {
    NoDefaults(table.columns, row);
    hide Names, Defaults, KeyOf;
  }

  /** A statement that needs its table changes that one only. */
  lemma ExecTable(x: Stmt, d: Db, d': Db)
    requires !x.CreateTable? && !x.DropTable? && Exec(x, d) == Some(d')
    ensures Only(d, d', x.table) && ActOn(x, d[x.table]) == Some(d'[x.table])
  {
    hide ActOn;
  }

  /** INSERT of a full row ON CONFLICT (key) DO NOTHING. */
  lemma Inserts(d: Db, d': Db, t: TableName, row: Row)
    requires Exec(Insert(t, row), d) == Some(d') && (t in d ==> Names(d[t].columns) == row.Keys)
    ensures Only(d, d', t) && Inserted(d[t], d'[t], KeyOf(d[t].key, row), row)
  {
    hide *;
    var x := Insert(t, row);
    ExecTable(x, d, d');
    OnlyHas(d, d', t);
    InsertsRow(t, d[t], row);
  }

  lemma OnlyHas(d: Db, d': Db, t: TableName)
    requires Only(d, d', t)
    ensures t in d && t in d'
  {
  }

  lemma Two(x: Stmt, y: Stmt, d: Db) returns (d1: Db)
    requires ExecAll([x, y], d).Some?
    ensures Exec(x, d) == Some(d1) && Exec(y, d1) == ExecAll([x, y], d)
  {
    hide Exec;
    assert [x, y][1..] == [y] && [y][1..] == [];
    d1 := Exec(x, d).value;
    assert ExecAll([y], d1) == Exec(y, d1);
  }

  /** What fails, and what does not: a table created without IF NOT EXISTS must not be there. Any other
      statement but a drop needs its table; an index and an update need all columns they mention; an
      insert needs all columns it names and must name the whole key. */
  lemma FailsExactly(d: Db, t: TableName, columns: seq<Column>, key: seq<string>, ifNotExists: bool, on: seq<string>,
                     c: Column, row: Row, at: seq<Value>)
    ensures Exec(CreateTable(t, columns, key, ifNotExists), d).None? <==> t in d && !ifNotExists
    ensures Exec(DropTable(t), d) == Some(d - {t})
    ensures Exec(CreateIndex(t, on), d).None? <==> t !in d || exists x :: x in on && x !in Names(d[t].columns)
    ensures Exec(AddColumn(t, c), d).None? <==> t !in d
    ensures Exec(Insert(t, row), d).None? <==>
      || t !in d
      || (exists x :: x in row && x !in Names(d[t].columns)) || (exists x :: x in d[t].key && x !in row)
    ensures Exec(DeleteKey(t, at), d).None? <==> t !in d
  {
    hide Names, Defaults, KeyOf;
  }

  /** An update of columns other than the key fails exactly when the table or a column it assigns, reads
      or tests is missing. */
  lemma UpdateFails(d: Db, t: TableName, sets: seq<Assign>, cond: Cond)
    requires t in d ==> forall x | x in d[t].key :: x !in SetCols(sets)
    ensures Exec(Update(t, sets, cond), d).None? <==>
      t !in d || exists x :: x in SetCols(sets) + SetReads(sets) + CondReads(cond) && x !in Names(d[t].columns)
  {
    hide Names, SetCols, SetReads, CondReads, Eval, Delta;
    if t in d {
      var mentioned, names := Mentions(sets, cond), Names(d[t].columns);
      assert mentioned == SetCols(sets) + SetReads(sets) + CondReads(cond);
      hide Mentions;
      if !(mentioned <= names) { var x :| x in mentioned && x !in names; }
      assert Exec(Update(t, sets, cond), d).None? <==> !(mentioned <= names);
    }
  }

  // ---- 0.0.17 and 0.0.18: a column is added and set in some rows ----

  lemma AddsAndSets(d: Db, d': Db, t: TableName, c: Column, v: Value, a: string, x: Value)
    requires x != Null && a != c.name
    requires ExecAll([AddColumn(t, c), Update(t, [Assign(c.name, Lit(v))], Eq(a, x))], d) == Some(d')
    ensures Only(d, d', t) && KeepsRows(d[t], d'[t]) && d'[t].columns == WithColumn(d[t].columns, c)
    ensures forall k | k in d[t].rows ::
      d'[t].rows[k] == if Cell(d[t].rows[k], a) == x then d[t].rows[k][c.name := v]
                       else Filled(d[t].columns, c.name, c.initial, d[t].rows[k])
  {
    var d1 := Two(AddColumn(t, c), Update(t, [Assign(c.name, Lit(v))], Eq(a, x)), d);
    hide Exec, ExecAll, Names;
    AddsColumn(d, d1, t, c);
    SetsWhere(d1, d', t, c.name, v, a, x);
  }

  /** 0.0.18 gives the role "admin" the right to impersonate and, when it adds the column, no other role.
      All roles and all their other cells stay, and so do all other tables. */
  lemma Leaves18(d: Db, d': Db)
    requires ExecAll(SCRIPT_18, d) == Some(d')
    ensures Only(d, d', Roles) && KeepsRows(d[Roles], d'[Roles])
    ensures d'[Roles].columns == WithColumn(d[Roles].columns, Column("can_impersonate", Bool(false)))
    ensures forall k | k in d[Roles].rows ::
      var row := d[Roles].rows[k];
      d'[Roles].rows[k] == if Cell(row, "name") == Str("admin") then row["can_impersonate" := Bool(true)]
                           else Filled(d[Roles].columns, "can_impersonate", Bool(false), row)
  {
    hide ExecAll;
    AddsAndSets(d, d', Roles, Flag("can_impersonate"), Bool(true), "name", Str("admin"));
  }

  /** 0.0.17 gives the root module, the one with the empty name, the subscription root "Subscription" and
      leaves it null for the others when it adds the column. */
  lemma Leaves17(d: Db, d': Db)
    requires ExecAll(SCRIPT_17, d) == Some(d')
    ensures Only(d, d', SchemaModules) && KeepsRows(d[SchemaModules], d'[SchemaModules])
    ensures d'[SchemaModules].columns == WithColumn(d[SchemaModules].columns, Column("subscription_root", Null))
    ensures forall k | k in d[SchemaModules].rows ::
      var row := d[SchemaModules].rows[k];
      d'[SchemaModules].rows[k] ==
        if Cell(row, "name") == Str("") then row["subscription_root" := Str("Subscription")]
        else Filled(d[SchemaModules].columns, "subscription_root", Null, row)
  {
    hide ExecAll;
    AddsAndSets(d, d', SchemaModules, Col("subscription_root"), Str("Subscription"), "name", Str(""));
  }

  // ---- 0.0.16 ----

  lemma ExecSingle(x: Stmt, d: Db)
    ensures ExecAll([x], d) == Exec(x, d)
  {
    hide Exec;
    assert [x][1..] == [];
  }

  /** 0.0.16 adds one row for the module core.catalog, unless one with its type and catalog is there. */
  lemma Leaves16(d: Db, d': Db)
    requires ExecAll(SCRIPT_16, d) == Some(d')
    requires SchemaModuleTypeCatalogs in d ==>
      && Names(d[SchemaModuleTypeCatalogs].columns) == {"module_name", "type_name", "catalog_name"}
      && d[SchemaModuleTypeCatalogs].key == ["type_name", "catalog_name"]
    ensures Only(d, d', SchemaModuleTypeCatalogs)
    ensures Inserted(d[SchemaModuleTypeCatalogs], d'[SchemaModuleTypeCatalogs],
      [Str("_module_core_catalog_query"), Str("core")],
      map["module_name" := Str("core.catalog"), "type_name" := Str("_module_core_catalog_query"),
          "catalog_name" := Str("core")])
  {
    var t := SchemaModuleTypeCatalogs;
    var row := map["module_name" := Str("core.catalog"), "type_name" := Str("_module_core_catalog_query"),
                   "catalog_name" := Str("core")];
    assert SCRIPT_16 == [Insert(t, row)];
    ExecSingle(Insert(t, row), d);
    assert row.Keys == {"module_name", "type_name", "catalog_name"};
    var key := ["type_name", "catalog_name"];
    assert key[1..] == ["catalog_name"] && key[1..][1..] == [];
    assert KeyOf(key, row) == [Str("_module_core_catalog_query"), Str("core")];
    hide ExecAll, Names, KeyOf;
    Inserts(d, d', t, row);
  }

  // ---- 0.0.14 ----

  /** Nothing but these tables has changed. */
  ghost predicate OnlyIn(d: Db, d': Db, ts: set<TableName>) {
    && (forall t | t in ts :: t in d && t in d')
    && (forall t | t !in ts :: Get(d', t) == Get(d, t))
  }

  lemma SetsAll(d: Db, d': Db, t: TableName, c: string, v: Value)
    requires Exec(Update(t, [Assign(c, Lit(v))], All), d) == Some(d')
    ensures Only(d, d', t) && KeepsRows(d[t], d'[t]) && d'[t].columns == d[t].columns
    ensures forall k | k in d[t].rows :: d'[t].rows[k] == d[t].rows[k][c := v]
  {
    hide Delta, Exec;
    Updates(d, d', t, [Assign(c, Lit(v))], All);
    forall k | k in d[t].rows ensures d'[t].rows[k] == d[t].rows[k][c := v] { OneLiteral(c, v, d[t].rows[k]); }
  }

  /** 0.0.14 empties the version of every catalog and deletes the setting system_types_version. */
  lemma Leaves14(d: Db, d': Db)
    requires ExecAll(SCRIPT_14, d) == Some(d')
    requires SchemaSettings in d ==> WellFormed(d[SchemaSettings]) && d[SchemaSettings].key == ["key"]
    ensures OnlyIn(d, d', {SchemaCatalogs, SchemaSettings})
    ensures KeepsRows(d[SchemaCatalogs], d'[SchemaCatalogs])
    ensures forall k | k in d[SchemaCatalogs].rows ::
      d'[SchemaCatalogs].rows[k] == d[SchemaCatalogs].rows[k]["version" := Str("")]
    ensures d'[SchemaSettings].rows.Keys <= d[SchemaSettings].rows.Keys
    ensures forall k | k in d[SchemaSettings].rows ::
      var row := d[SchemaSettings].rows[k];
      && (k in d'[SchemaSettings].rows <==> Cell(row, "key") != Str("system_types_version"))
      && (k in d'[SchemaSettings].rows ==> d'[SchemaSettings].rows[k] == row)
  {
    var x := Update(SchemaCatalogs, [Assign("version", Lit(Str("")))], All);
    var y := DeleteKey(SchemaSettings, [Str("system_types_version")]);
    assert SCRIPT_14 == [x, y];
    hide ExecAll, Exec, WellFormed, ActOn, SCRIPT_14, KeepsRows, Names;
    var d1 := Two(x, y, d);
    SetsAll(d, d1, SchemaCatalogs, "version", Str(""));
    ExecTable(y, d1, d');
    SameAs(d, d1, SchemaSettings);
    SameAs(d1, d', SchemaCatalogs);
    DeleteByColumn(SchemaSettings, d[SchemaSettings], "key", Str("system_types_version"));
  }

  // ---- 0.0.12 ----

  lemma AddsTwo(d: Db, d': Db, t: TableName, a: Column, b: Column)
    requires a.name != b.name && ExecAll([AddColumn(t, a), AddColumn(t, b)], d) == Some(d')
    ensures Only(d, d', t) && KeepsRows(d[t], d'[t])
    ensures d'[t].columns == WithColumn(WithColumn(d[t].columns, a), b)
    ensures forall k | k in d[t].rows ::
      d'[t].rows[k] ==
        Filled(d[t].columns, b.name, b.initial, Filled(d[t].columns, a.name, a.initial, d[t].rows[k]))
  {
    var d1 := Two(AddColumn(t, a), AddColumn(t, b), d);
    hide ExecAll, Exec, Names, WithColumn;
    AddsColumn(d, d1, t, a);
    AddsColumn(d1, d', t, b);
    WithColumnNames(d[t].columns, a);
  }

  /** The row with the four columns that 0.0.12 gives the catalogs, where the table did not have them. */
  function CatalogRow(columns: seq<Column>, row: Row): Row {
    Filled(columns, "read_only", Bool(false),
      Filled(columns, "as_module", Bool(false),
        Filled(columns, "prefix", Str(""), Filled(columns, "source_type", Str(""), row))))
  }

  function CatalogColumnsOf(columns: seq<Column>): seq<Column> {
    WithColumn(WithColumn(WithColumn(WithColumn(columns, Text("source_type")), Text("prefix")), Flag("as_module")),
               Flag("read_only"))
  }

  lemma CatalogColumns(d: Db, d1: Db, d2: Db)
    requires ExecAll([SCRIPT_12[0], SCRIPT_12[1]], d) == Some(d1)
    requires ExecAll([SCRIPT_12[2], SCRIPT_12[3]], d1) == Some(d2)
    ensures Only(d, d2, SchemaCatalogs) && KeepsRows(d[SchemaCatalogs], d2[SchemaCatalogs])
    ensures d2[SchemaCatalogs].columns == CatalogColumnsOf(d[SchemaCatalogs].columns)
    ensures forall k | k in d[SchemaCatalogs].rows ::
      d2[SchemaCatalogs].rows[k] == CatalogRow(d[SchemaCatalogs].columns, d[SchemaCatalogs].rows[k])
  {
    var t := SchemaCatalogs;
    hide ExecAll, Exec, Names, WithColumn;
    AddsTwo(d, d1, t, Text("source_type"), Text("prefix"));
    AddsTwo(d1, d2, t, Flag("as_module"), Flag("read_only"));
    WithColumnNames(d[t].columns, Text("source_type"));
    WithColumnNames(WithColumn(d[t].columns, Text("source_type")), Text("prefix"));
  }

  /** CREATE TABLE IF NOT EXISTS: a table that is there stays, a missing one comes empty. */
  lemma CreatesMissing(d: Db, d': Db, t: TableName, columns: seq<Column>, key: seq<string>)
    requires Exec(CreateTable(t, columns, key, true), d) == Some(d')
    ensures Get(d', t) == if t in d then Get(d, t) else Some(Table(columns, key, map[]))
    ensures forall u | u != t :: Get(d', u) == Get(d, u)
  {
  }

  lemma Parts12(d: Db, d': Db) returns (d1: Db, d2: Db, d3: Db, d4: Db)
    requires ExecAll(SCRIPT_12, d) == Some(d')
    ensures ExecAll([SCRIPT_12[0], SCRIPT_12[1]], d) == Some(d1)
    ensures ExecAll([SCRIPT_12[2], SCRIPT_12[3]], d1) == Some(d2)
    ensures Exec(SCRIPT_12[4], d2) == Some(d3) && Exec(SCRIPT_12[5], d3) == Some(d4)
    ensures Exec(SCRIPT_12[6], d4) == Some(d')
  {
    assert |SCRIPT_12| == 7;
    hide SCRIPT_12, ExecAll, Exec;
    var ss := SCRIPT_12;
    assert ss == [ss[0], ss[1]] + ([ss[2], ss[3]] + ([ss[4], ss[5]] + [ss[6]]));
    ExecConcat([ss[0], ss[1]], [ss[2], ss[3]] + ([ss[4], ss[5]] + [ss[6]]), d);
    d1 := ExecAll([ss[0], ss[1]], d).value;
    ExecConcat([ss[2], ss[3]], [ss[4], ss[5]] + [ss[6]], d1);
    d2 := ExecAll([ss[2], ss[3]], d1).value;
    ExecConcat([ss[4], ss[5]], [ss[6]], d2);
    d4 := ExecAll([ss[4], ss[5]], d2).value;
    d3 := Two(ss[4], ss[5], d2);
    ExecSingle(ss[6], d4);
  }

  lemma VersionRow(d: Db, d': Db)
    requires Exec(SCHEMA_VERSION, d) == Some(d')
    requires SchemaSettings in d ==>
      d[SchemaSettings].key == ["key"] && Names(d[SchemaSettings].columns) == {"key", "value"}
    ensures Only(d, d', SchemaSettings)
    ensures Inserted(d[SchemaSettings], d'[SchemaSettings], [Str("schema_version")],
                     map["key" := Str("schema_version"), "value" := Str("\"0\"")])
  {
    var row := map["key" := Str("schema_version"), "value" := Str("\"0\"")];
    assert row.Keys == {"key", "value"} && ["key"][1..] == [];
    assert KeyOf(["key"], row) == [Str("schema_version")];
    hide Exec, Names, KeyOf;
    Inserts(d, d', SchemaSettings, row);
  }

  ghost predicate CatalogsFilled(d: Db, d': Db) {
    && SchemaCatalogs in d && SchemaCatalogs in d' && KeepsRows(d[SchemaCatalogs], d'[SchemaCatalogs])
    && d'[SchemaCatalogs].columns == CatalogColumnsOf(d[SchemaCatalogs].columns)
    && forall k | k in d[SchemaCatalogs].rows ::
         d'[SchemaCatalogs].rows[k] == CatalogRow(d[SchemaCatalogs].columns, d[SchemaCatalogs].rows[k])
  }

  ghost predicate FieldsFilled(d: Db, d': Db) {
    && SchemaFields in d && SchemaFields in d' && KeepsRows(d[SchemaFields], d'[SchemaFields])
    && d'[SchemaFields].columns == WithColumn(d[SchemaFields].columns, Flag("is_pk"))
    && forall k | k in d[SchemaFields].rows ::
         d'[SchemaFields].rows[k] == Filled(d[SchemaFields].columns, "is_pk", Bool(false), d[SchemaFields].rows[k])
  }

  ghost predicate NodesMade(d: Db, d': Db) {
    && ClusterNodes in d'
    && if ClusterNodes in d then d'[ClusterNodes] == d[ClusterNodes]
       else d'[ClusterNodes].rows == map[] && d'[ClusterNodes].key == ["name"]
  }

  ghost predicate VersionSet(d: Db, d': Db) {
    && SchemaSettings in d && SchemaSettings in d'
    && Inserted(d[SchemaSettings], d'[SchemaSettings], [Str("schema_version")],
                map["key" := Str("schema_version"), "value" := Str("\"0\"")])
  }

  /** Table t is the same in both. */
  ghost predicate Stays(d: Db, d': Db, t: TableName) { Get(d', t) == Get(d, t) }

  lemma Carried(d: Db, d1: Db, d2: Db, d': Db)
    requires Stays(d1, d', SchemaCatalogs) && CatalogsFilled(d, d1)
    requires Stays(d, d1, SchemaFields) && FieldsFilled(d1, d2) && Stays(d2, d', SchemaFields)
    ensures CatalogsFilled(d, d') && FieldsFilled(d, d')
  {
    hide CatalogRow, Filled, KeepsRows, WithColumn, CatalogColumnsOf;
    SameAs(d1, d', SchemaCatalogs);
    SameAs(d, d1, SchemaFields);
    SameAs(d2, d', SchemaFields);
  }

  lemma CarriedNodes(d: Db, d1: Db, d2: Db, d': Db)
    requires Stays(d, d1, ClusterNodes) && NodesMade(d1, d2) && Stays(d2, d', ClusterNodes)
    requires Stays(d, d2, SchemaSettings) && VersionSet(d2, d')
    ensures NodesMade(d, d') && VersionSet(d, d')
  {
    hide Inserted;
    SameAs(d, d1, ClusterNodes);
    SameAs(d2, d', ClusterNodes);
    SameAs(d, d2, SchemaSettings);
  }

  lemma Four(d: Db, d2: Db, d3: Db, d4: Db, d': Db)
    requires Only(d, d2, SchemaCatalogs) && Only(d2, d3, SchemaFields) && Only(d4, d', SchemaSettings)
    requires forall u | u != ClusterNodes :: Get(d4, u) == Get(d3, u)
    ensures forall t | t !in {SchemaCatalogs, SchemaFields, SchemaSettings, ClusterNodes} :: Stays(d, d', t)
    ensures Stays(d2, d', SchemaCatalogs) && Stays(d, d2, SchemaFields) && Stays(d3, d', SchemaFields)
    ensures Stays(d, d3, ClusterNodes) && Stays(d4, d', ClusterNodes) && Stays(d, d4, SchemaSettings)
  {
  }

  /** 0.0.12 fills the new columns of the catalogs and the fields with their defaults, creates the table of
      cluster nodes if it is missing and the setting schema_version if it is missing. All rows and all
      their other cells stay, and so do all other tables. */
  lemma Leaves12(d: Db, d': Db)
    requires ExecAll(SCRIPT_12, d) == Some(d')
    requires SchemaSettings in d ==>
      d[SchemaSettings].key == ["key"] && Names(d[SchemaSettings].columns) == {"key", "value"}
    ensures CatalogsFilled(d, d') && FieldsFilled(d, d') && NodesMade(d, d') && VersionSet(d, d')
    ensures forall t | t !in {SchemaCatalogs, SchemaFields, SchemaSettings, ClusterNodes} :: Stays(d, d', t)
  {
    var d1, d2, d3, d4 := Parts12(d, d');
    var nodes := SCRIPT_12[5];
    assert SCRIPT_12[4] == AddColumn(SchemaFields, Flag("is_pk")) && SCRIPT_12[6] == SCHEMA_VERSION;
    assert nodes == CreateTable(ClusterNodes, nodes.columns, ["name"], true);
    hide SCRIPT_12, SCHEMA_VERSION, ExecAll, Exec, Names, CatalogRow, Filled, WithColumn, KeepsRows, Inserted;
    hide CatalogColumnsOf;
    CatalogColumns(d, d1, d2);
    AddsColumn(d2, d3, SchemaFields, Flag("is_pk"));
    CreatesMissing(d3, d4, ClusterNodes, nodes.columns, ["name"]);
    SameAs(d3, d4, SchemaSettings);
    hide Stays;
    SettingsKept(d, d2, d3, d4);
    VersionRow(d4, d');
    Four(d, d2, d3, d4, d');
    Carried(d, d2, d3, d');
    CarriedNodes(d, d3, d4, d');
  }

  lemma SettingsKept(d: Db, d2: Db, d3: Db, d4: Db)
    requires Only(d, d2, SchemaCatalogs) && Only(d2, d3, SchemaFields)
    requires forall u | u != ClusterNodes :: Get(d4, u) == Get(d3, u)
    ensures SchemaSettings in d <==> SchemaSettings in d4
    ensures SchemaSettings in d ==> d4[SchemaSettings] == d[SchemaSettings]
  {
    SameAs(d, d4, SchemaSettings);
  }

  lemma SameAs(d: Db, d': Db, t: TableName)
    requires Get(d', t) == Get(d, t)
    ensures t in d <==> t in d'
    ensures t in d ==> d'[t] == d[t]
  {
  }

  // ---- 0.0.11 ----

  /** The text without wrappers and without the white space that the expression removes; null stays. */
  function Stripped(v: Value): Value { if v.Str? then Str(Strip(v.s, IsSpace)) else v }

  /** The row with a clean type name: one that is there and not empty stays, any other is computed. */
  function NamedRow(columns: seq<Column>, name: string, from: string, row: Row): Row {
    if name in Names(columns) && Cell(row, name) !in {Null, Str("")} then row
    else row[name := Stripped(Cell(row, from))]
  }

  lemma OneStrip(name: string, from: string, row: Row)
    ensures row + Delta([Assign(name, StripOf(from))], row) == row[name := Stripped(Cell(row, from))]
    ensures Eval(Unset(name), row) == Yes <==> Cell(row, name) in {Null, Str("")}
  {
    var sets := [Assign(name, StripOf(from))];
    assert sets[1..] == [] && Delta(sets[1..], row) == map[];
  }

  lemma SetsNames(d: Db, d': Db, t: TableName, name: string, from: string)
    requires Exec(Update(t, [Assign(name, StripOf(from))], Unset(name)), d) == Some(d')
    ensures Only(d, d', t) && KeepsRows(d[t], d'[t]) && d'[t].columns == d[t].columns
    ensures forall k | k in d[t].rows ::
      var row := d[t].rows[k];
      d'[t].rows[k] == if Cell(row, name) in {Null, Str("")} then row[name := Stripped(Cell(row, from))] else row
  {
    hide Delta, Exec, Stripped;
    Updates(d, d', t, [Assign(name, StripOf(from))], Unset(name));
    forall k | k in d[t].rows
      ensures
        var row := d[t].rows[k];
        d'[t].rows[k] == if Cell(row, name) in {Null, Str("")} then row[name := Stripped(Cell(row, from))] else row
    {
      OneStrip(name, from, d[t].rows[k]);
    }
  }

  /** The clean names of one table. */
  ghost predicate NamesFilled(d: Db, d': Db, t: TableName, name: string, from: string) {
    && t in d && t in d' && KeepsRows(d[t], d'[t]) && d'[t].columns == WithColumn(d[t].columns, Text(name))
    && forall k | k in d[t].rows :: d'[t].rows[k] == NamedRow(d[t].columns, name, from, d[t].rows[k])
  }

  lemma AddsNames(d: Db, d1: Db, d2: Db, d': Db, t: TableName, name: string, from: string)
    requires name != from && Exec(AddColumn(t, Text(name)), d) == Some(d1) && Stays(d1, d2, t)
    requires Exec(Update(t, [Assign(name, StripOf(from))], Unset(name)), d2) == Some(d')
    ensures NamesFilled(d, d', t, name, from)
  {
    hide Exec, Names, Stripped, WithColumn, Filled, NamedRow;
    AddsColumn(d, d1, t, Text(name));
    SameAs(d1, d2, t);
    SetsNames(d2, d', t, name, from);
    forall k | k in d[t].rows ensures d'[t].rows[k] == NamedRow(d[t].columns, name, from, d[t].rows[k]) {
      NamedFrom(d[t].columns, name, from, d[t].rows[k]);
    }
  }

  lemma NamedFrom(columns: seq<Column>, name: string, from: string, row: Row)
    requires name != from
    ensures
      var r := Filled(columns, name, Str(""), row);
      NamedRow(columns, name, from, row) ==
        if Cell(r, name) in {Null, Str("")} then r[name := Stripped(Cell(r, from))] else r
  {
    hide Names, Stripped;
  }

  lemma FilledStays(d: Db, d': Db, e: Db, e': Db, t: TableName, name: string, from: string)
    requires NamesFilled(d, d', t, name, from) && Stays(e, d, t) && Stays(d', e', t)
    ensures NamesFilled(e, e', t, name, from)
  {
    hide KeepsRows, WithColumn, NamedRow;
    SameAs(e, d, t);
    SameAs(d', e', t);
  }

  lemma Parts11(d: Db, d': Db) returns (d1: Db, d2: Db, d3: Db)
    requires ExecAll(SCRIPT_11, d) == Some(d')
    ensures Exec(SCRIPT_11[0], d) == Some(d1) && Exec(SCRIPT_11[1], d1) == Some(d2)
    ensures Exec(SCRIPT_11[2], d2) == Some(d3) && Exec(SCRIPT_11[3], d3) == Some(d')
  {
    assert |SCRIPT_11| == 4;
    hide SCRIPT_11, ExecAll, Exec;
    var ss := SCRIPT_11;
    assert ss == [ss[0], ss[1]] + [ss[2], ss[3]];
    ExecConcat([ss[0], ss[1]], [ss[2], ss[3]], d);
    d1 := Two(ss[0], ss[1], d);
    d2 := ExecAll([ss[0], ss[1]], d).value;
    d3 := Two(ss[2], ss[3], d2);
  }

  /** 0.0.11 gives the fields and the arguments their clean type names and touches nothing else. */
  lemma Leaves11(d: Db, d': Db)
    requires ExecAll(SCRIPT_11, d) == Some(d')
    ensures NamesFilled(d, d', SchemaFields, "field_type_name", "field_type")
    ensures NamesFilled(d, d', SchemaArguments, "arg_type_name", "arg_type")
    ensures forall t | t !in {SchemaFields, SchemaArguments} :: Stays(d, d', t)
  {
    var d1, d2, d3 := Parts11(d, d');
    assert SCRIPT_11[0] == AddColumn(SchemaFields, Text("field_type_name"));
    assert SCRIPT_11[1] == AddColumn(SchemaArguments, Text("arg_type_name"));
    assert SCRIPT_11[2] == BACKFILL_FIELDS && SCRIPT_11[3] == BACKFILL_ARGUMENTS;
    hide SCRIPT_11, ExecAll, Exec, Names, WithColumn, NamesFilled, KeepsRows;
    ExecTable(AddColumn(SchemaFields, Text("field_type_name")), d, d1);
    ExecTable(AddColumn(SchemaArguments, Text("arg_type_name")), d1, d2);
    ExecTable(BACKFILL_FIELDS, d2, d3);
    ExecTable(BACKFILL_ARGUMENTS, d3, d');
    hide ActOn;
    AddsNames(d, d1, d2, d3, SchemaFields, "field_type_name", "field_type");
    FilledStays(d, d3, d, d', SchemaFields, "field_type_name", "field_type");
    AddsNames(d1, d2, d3, d', SchemaArguments, "arg_type_name", "arg_type");
    FilledStays(d1, d', d, d', SchemaArguments, "arg_type_name", "arg_type");
  }

  // ---- 0.0.15 ----

  /** A row as 0.0.15 leaves it. */
  function FieldRow(row: Row): Row {
    if Cell(row, "type_name") in {Str("Query"), Str("Mutation")} && Cell(row, "name") == Str("function") then
      row["dependency_catalog" := Null]["catalog" := Str("_system")]
    else if Cell(row, "hugr_type") == Str("submodule") || Cell(row, "catalog") == Str("_system") then
      row["dependency_catalog" := Null]
    else row
  }

  lemma FieldRowIs(row: Row)
    ensures FixedFrom(0, row) == FieldRow(row)
  {
    FixDeltas(row);
    FixConds(row);
    var row1 := FixedBy(SCRIPT_15[0], row);
    FixDeltas(row1);
    FixConds(row1);
    hide Delta, Eval, SCRIPT_15;
  }

  /** 0.0.15 clears the dependency of the submodule and system fields and makes the root functions system
      fields without dependency. All rows and all their other cells stay, and so do all other tables. */
  lemma Leaves15(d: Db, d': Db)
    requires ExecAll(SCRIPT_15, d) == Some(d')
    ensures Only(d, d', SchemaFields) && KeepsRows(d[SchemaFields], d'[SchemaFields])
    ensures d'[SchemaFields].columns == d[SchemaFields].columns
    ensures forall k | k in d[SchemaFields].rows :: d'[SchemaFields].rows[k] == FieldRow(d[SchemaFields].rows[k])
  {
    FixDeltas(map[]);
    hide SCRIPT_15, ExecAll, FieldRow, FixedFrom;
    assert SCRIPT_15[0..] == SCRIPT_15;
    var d1 := FixSteps(0, d);
    forall k | k in d[SchemaFields].rows ensures d'[SchemaFields].rows[k] == FieldRow(d[SchemaFields].rows[k]) {
      FieldRowIs(d[SchemaFields].rows[k]);
    }
  }

  // ---- 0.0.9, 0.0.10 and 0.0.13 ----

  lemma {:induction false} IndexesNothing(ss: seq<Stmt>, d: Db)
    requires (forall x | x in ss :: x.CreateIndex?) && ExecAll(ss, d).Some?
    ensures ExecAll(ss, d) == Some(d)
  {
    if ss != [] {
      assert ss[0] in ss;
      var t := ss[0].table;
      assert ActOn(ss[0], d[t]) == Some(d[t]) && d[t := d[t]] == d;
      assert Exec(ss[0], d) == Some(d);
      IndexesNothing(ss[1..], d);
    }
  }

  /** 0.0.10 changes no table. */
  lemma Leaves10(d: Db, d': Db)
    requires ExecAll(SCRIPT_10, d) == Some(d')
    ensures d' == d
  {
    assert forall x | x in SCRIPT_10 :: x.CreateIndex?;
    hide SCRIPT_10;
    IndexesNothing(SCRIPT_10, d);
  }

  /** The table, or an empty one where it is missing and declared. */
  function OrEmpty(defs: seq<Def>, d: Db, t: TableName): Option<Table> {
    if t !in d && DefOf(t, defs).Some? then Some(Table(DefOf(t, defs).value.columns, DefOf(t, defs).value.key, map[]))
    else Get(d, t)
  }

  lemma {:induction false} CreatesEach(defs: seq<Def>, d: Db)
    requires DistinctNames(defs)
    ensures ExecAll(Creates(defs, true), d).Some?
    ensures forall t :: Get(ExecAll(Creates(defs, true), d).value, t) == OrEmpty(defs, d, t)
  {
    if defs != [] {
      var f := defs[0];
      var x := CreateTable(f.name, f.columns, f.key, true);
      var d1 := Exec(x, d).value;
      CreatesMissing(d, d1, f.name, f.columns, f.key);
      assert Creates(defs, true)[1..] == Creates(defs[1..], true);
      NotDefined(f.name, defs[1..]);
      hide Exec;
      CreatesEach(defs[1..], d1);
    }
  }

  /** 0.0.9 succeeds on every database. It creates the missing ones of the twelve tables empty and leaves
      all that are there as they are. */
  lemma Leaves9(d: Db)
    ensures ExecAll(SCRIPT_9, d).Some?
    ensures forall t :: Get(ExecAll(SCRIPT_9, d).value, t) == OrEmpty(DEFS_9, d, t)
  {
    Names9();
    hide DEFS_9;
    CreatesEach(DEFS_9, d);
  }

  /** 0.0.13 leaves the twelve tables empty, but for the setting schema_version, and all others alone. */
  lemma Leaves13(d: Db, d': Db)
    requires ExecAll(SCRIPT_13, d) == Some(d')
    ensures forall t | t in TWELVE ::
      t in d' && d'[t].rows == if t == SchemaSettings then
        map[[Str("schema_version")] := map["key" := Str("schema_version"), "value" := Str("\"0\"")]] else map[]
    ensures forall t | t !in TWELVE :: Stays(d, d', t)
  {
    hide SCRIPT_13, DEFS_13, DefOf, On, ExecAll, TWELVE;
    forall t
      ensures t in TWELVE <==> DefOf(t, DEFS_13).Some?
      ensures Get(d', t) == if t in TWELVE then Some(ResetTable(t)) else Get(d, t)
    {
      Resets(t, Get(d, t));
      TwelveDropped(t);
      hide IsReset, ResetTable;
      TablewiseAt(SCRIPT_13, d, t);
    }
  }

  lemma TwelveDropped(t: TableName)
    ensures IsReset(t) <==> t in TWELVE
  {
  }

  const TWELVE: set<TableName> := {
    SchemaCatalogs, SchemaCatalogDependencies, SchemaTypes, SchemaFields, SchemaArguments, SchemaEnumValues,
    SchemaDirectives, SchemaModules, SchemaModuleTypeCatalogs, SchemaDataObjects, SchemaDataObjectQueries,
    SchemaSettings}

  // ---- The reset makes the tables that the earlier scripts lead to ----

  /** The same columns with the same defaults, in any order. */
  ghost predicate SameColumns(xs: seq<Column>, ys: seq<Column>) {
    |xs| == |ys| && forall c :: c in xs <==> c in ys
  }

  lemma Parts9(d: Db, d': Db) returns (d1: Db, d2: Db)
    requires ExecAll(BEFORE, d) == Some(d')
    ensures ExecAll(SCRIPT_9, d) == Some(d1) && ExecAll(SCRIPT_11, d1) == Some(d2) && ExecAll(SCRIPT_12, d2) == Some(d')
  {
    assert BEFORE == SCRIPT_9 + (SCRIPT_10 + (SCRIPT_11 + SCRIPT_12));
    hide BEFORE, SCRIPT_9, SCRIPT_10, SCRIPT_11, SCRIPT_12, ExecAll;
    ExecConcat(SCRIPT_9, SCRIPT_10 + (SCRIPT_11 + SCRIPT_12), d);
    d1 := ExecAll(SCRIPT_9, d).value;
    ExecConcat(SCRIPT_10, SCRIPT_11 + SCRIPT_12, d1);
    Leaves10(d1, ExecAll(SCRIPT_10, d1).value);
    ExecConcat(SCRIPT_11, SCRIPT_12, d1);
    d2 := ExecAll(SCRIPT_11, d1).value;
  }

  lemma {:induction false} NewName(columns: seq<Column>, c: string)
    requires forall x | x in columns :: x.name != c
    ensures c !in Names(columns)
  {
    if columns != [] {
      assert columns[0] in columns;
      NewName(columns[1..], c);
    }
  }

  /** The columns of a table after 0.0.9 to 0.0.12, from those it was created with. */
  function Grown(t: TableName, columns: seq<Column>): seq<Column> {
    if t == SchemaCatalogs then CatalogColumnsOf(columns)
    else if t == SchemaFields then WithColumn(WithColumn(columns, Text("field_type_name")), Flag("is_pk"))
    else if t == SchemaArguments then WithColumn(columns, Text("arg_type_name"))
    else columns
  }

  lemma FieldsMatch()
    ensures SameColumns(Grown(SchemaFields, FIELDS_DEF_9.columns), FIELDS_DEF_13.columns)
  {
    FieldsGrown();
    FieldsListed();
    hide *;
    Between(FIELDS_DEF_9.columns, Text("field_type_name"), Flag("is_pk"), 3, 9);
  }

  lemma FieldsGrown()
    ensures Grown(SchemaFields, FIELDS_DEF_9.columns) ==
              (FIELDS_DEF_9.columns + [Text("field_type_name")]) + [Flag("is_pk")]
  {
    FieldsLack("field_type_name");
    FieldsLack("is_pk");
    AppendNames(FIELDS_DEF_9.columns, Text("field_type_name"));
    hide Names, FIELDS_DEF_9;
  }

  lemma FieldsLack(c: string)
    requires c == "field_type_name" || c == "is_pk"
    ensures c !in Names(FIELDS_DEF_9.columns)
  {
    hide Names;
    NewName(FIELDS_DEF_9.columns, c);
  }

  lemma FieldsListed()
    ensures |FIELDS_DEF_9.columns| == 12
    ensures
      var xs := FIELDS_DEF_9.columns;
      FIELDS_DEF_13.columns == xs[..3] + [Text("field_type_name")] + xs[3..9] + [Flag("is_pk")] + xs[9..]
  {
    var xs, ys := FIELDS_DEF_9.columns, FIELDS_DEF_13.columns;
    assert |ys| == 14 && ys[3] == Text("field_type_name") && ys[10] == Flag("is_pk");
    assert ys[..3] == xs[..3];
    assert ys[4..10] == xs[3..9];
    assert ys[11..] == xs[9..];
    assert xs[3..9] + [Flag("is_pk")] + xs[9..] == ys[4..];
  }

  lemma Between(xs: seq<Column>, a: Column, b: Column, i: nat, j: nat)
    requires i <= j <= |xs|
    ensures SameColumns((xs + [a]) + [b], xs[..i] + [a] + xs[i..j] + [b] + xs[j..])
  {
    assert xs == xs[..i] + xs[i..j] + xs[j..];
  }

  lemma ArgumentsMatch()
    ensures SameColumns(Grown(SchemaArguments, ARGUMENTS_DEF_9.columns), ARGUMENTS_DEF_13.columns)
  {
    hide Names;
    NewName(ARGUMENTS_DEF_9.columns, "arg_type_name");
  }

  lemma CatalogsMatch()
    ensures SameColumns(Grown(SchemaCatalogs, CATALOGS_DEF_9.columns), CATALOGS_DEF_13.columns)
  {
    CatalogsGrown();
    CatalogsListed();
    hide *;
    Amid(CATALOGS_DEF_9.columns, CATALOG_COLUMNS, 4);
  }

  lemma Amid(xs: seq<Column>, added: seq<Column>, i: nat)
    requires i <= |xs|
    ensures SameColumns(xs + added, xs[..i] + added + xs[i..])
  {
    assert xs == xs[..i] + xs[i..];
  }

  const CATALOG_COLUMNS: seq<Column> := [Text("source_type"), Text("prefix"), Flag("as_module"), Flag("read_only")]

  lemma CatalogsGrown()
    ensures Grown(SchemaCatalogs, CATALOGS_DEF_9.columns) == CATALOGS_DEF_9.columns + CATALOG_COLUMNS
  {
    hide Names;
    var xs := CATALOGS_DEF_9.columns;
    NewName(xs, "source_type");
    NewName(xs, "prefix");
    NewName(xs, "as_module");
    NewName(xs, "read_only");
    AddedColumns(xs);
  }

  lemma AddedColumns(xs: seq<Column>)
    requires Names(xs) !! {"source_type", "prefix", "as_module", "read_only"}
    ensures CatalogColumnsOf(xs) == xs + CATALOG_COLUMNS
  {
    hide Names;
    var xs1 := xs + [Text("source_type")];
    var xs2 := xs1 + [Text("prefix")];
    AppendNames(xs, Text("source_type"));
    AppendNames(xs1, Text("prefix"));
    AppendNames(xs2, Flag("as_module"));
  }

  lemma CatalogsListed()
    ensures |CATALOGS_DEF_9.columns| == 8
    ensures CATALOGS_DEF_13.columns == CATALOGS_DEF_9.columns[..4] + CATALOG_COLUMNS + CATALOGS_DEF_9.columns[4..]
  {
    var xs, ys := CATALOGS_DEF_9.columns, CATALOGS_DEF_13.columns;
    assert |ys| == 12 && ys[..4] == xs[..4] && ys[4..8] == CATALOG_COLUMNS && ys[8..] == xs[4..];
  }

  lemma DefsMatch(i: nat)
    requires i < 12
    ensures |DEFS_9| == 12 && |DEFS_13| == 12
    ensures DEFS_9[i].name == DEFS_13[i].name && DEFS_9[i].key == DEFS_13[i].key
    ensures SameColumns(Grown(DEFS_9[i].name, DEFS_9[i].columns), DEFS_13[i].columns)
  {
    hide Names, WithColumn, CatalogColumnsOf;
    FieldsMatch();
    ArgumentsMatch();
    CatalogsMatch();
  }

  lemma TableDefs(t: TableName)
    requires t in TWELVE
    ensures DefOf(t, DEFS_9).Some? && DefOf(t, DEFS_13).Some?
    ensures DefOf(t, DEFS_9).value.key == DefOf(t, DEFS_13).value.key
    ensures SameColumns(Grown(t, DefOf(t, DEFS_9).value.columns), DefOf(t, DEFS_13).value.columns)
  {
    Names9();
    NamesDistinct();
    ResetDef(t);
    TwelveDropped(t);
    hide *;
    var i := DefIndex(t, DEFS_13);
    DefsMatch(if i < 12 then i else 0);
    DefNamed(t, DEFS_13);
    DefinedAt(DEFS_9, i);
  }

  lemma {:induction false} DefNamed(t: TableName, defs: seq<Def>)
    ensures DefOf(t, defs).Some? ==> DefOf(t, defs).value.name == t
  {
    if defs != [] { DefNamed(t, defs[1..]); }
  }

  lemma Columns11(d: Db, d': Db, t: TableName)
    requires ExecAll(SCRIPT_11, d) == Some(d') && t in d
    ensures t in d' && d'[t].key == d[t].key
    ensures d'[t].columns ==
      if t == SchemaFields then WithColumn(d[t].columns, Text("field_type_name"))
      else if t == SchemaArguments then WithColumn(d[t].columns, Text("arg_type_name"))
      else d[t].columns
  {
    hide SCRIPT_11, ExecAll, WithColumn, NamedRow;
    Leaves11(d, d');
    if t !in {SchemaFields, SchemaArguments} {
      assert Stays(d, d', t);
      SameAs(d, d', t);
    }
  }

  /** The shape that 0.0.9 gives the settings. */
  ghost predicate SettingsShaped(d: Db) {
    SchemaSettings in d ==>
      d[SchemaSettings].key == ["key"] && Names(d[SchemaSettings].columns) == {"key", "value"}
  }

  lemma Columns12(d: Db, d': Db, t: TableName)
    requires ExecAll(SCRIPT_12, d) == Some(d') && t in d && SettingsShaped(d) && t != ClusterNodes
    ensures t in d' && d'[t].key == d[t].key
    ensures d'[t].columns ==
      if t == SchemaCatalogs then CatalogColumnsOf(d[t].columns)
      else if t == SchemaFields then WithColumn(d[t].columns, Flag("is_pk"))
      else d[t].columns
  {
    hide SCRIPT_12, ExecAll, WithColumn, CatalogColumnsOf, CatalogRow, Filled, Names;
    Leaves12(d, d');
    if t !in {SchemaCatalogs, SchemaFields, SchemaSettings} {
      assert Stays(d, d', t);
      SameAs(d, d', t);
    }
  }

  lemma SettingsColumns()
    ensures SETTINGS_DEF.key == ["key"] && Names(SETTINGS_DEF.columns) == {"key", "value"}
  {
    var columns := SETTINGS_DEF.columns;
    assert columns[1..] == [Col("value")] && columns[1..][1..] == [];
    assert Names(columns) == {"key"} + ({"value"} + {});
  }

  lemma FreshSettings()
    ensures DefOf(SchemaSettings, DEFS_9) == Some(SETTINGS_DEF)
  {
    Names9();
    Defs9();
    DefNames9();
    hide *;
    DefinedAt(DEFS_9, 11);
  }

  lemma Columns9(d: Db, d': Db, t: TableName)
    requires ExecAll(SCRIPT_9, d) == Some(d') && t !in d && DefOf(t, DEFS_9).Some?
    ensures t in d' && d'[t].key == DefOf(t, DEFS_9).value.key && d'[t].columns == DefOf(t, DEFS_9).value.columns
  {
    hide SCRIPT_9, ExecAll, DEFS_9, DefOf;
    Leaves9(d);
    assert Get(d', t) == OrEmpty(DEFS_9, d, t);
  }

  lemma FreshHas(d: Db, t: TableName)
    requires Fresh(d) && t in TWELVE
    ensures t !in d && t != ClusterNodes
  {
    TwelveDropped(t);
    hide IsReset;
  }

  lemma ShapedBy(d: Db)
    requires SchemaSettings in d && d[SchemaSettings].key == SETTINGS_DEF.key
    requires d[SchemaSettings].columns == SETTINGS_DEF.columns
    ensures SettingsShaped(d)
  {
    hide *;
    SettingsColumns();
    ShapedIs(d);
  }

  lemma ShapedIs(d: Db)
    requires SchemaSettings in d
    ensures SettingsShaped(d) <==>
      d[SchemaSettings].key == ["key"] && Names(d[SchemaSettings].columns) == {"key", "value"}
  {
  }

  lemma Migrated(d: Db, d': Db, t: TableName)
    requires Fresh(d) && ExecAll(BEFORE, d) == Some(d') && t in TWELVE && DefOf(t, DEFS_9).Some?
    ensures t in d' && d'[t].key == DefOf(t, DEFS_9).value.key
    ensures d'[t].columns == Grown(t, DefOf(t, DEFS_9).value.columns)
  {
    assert SchemaSettings in TWELVE;
    hide *;
    var d1, d2 := Parts9(d, d');
    FreshHas(d, t);
    FreshHas(d, SchemaSettings);
    FreshSettings();
    Columns9(d, d1, t);
    Columns9(d, d1, SchemaSettings);
    Columns11(d1, d2, t);
    Columns11(d1, d2, SchemaSettings);
    ShapedBy(d2);
    Columns12(d2, d', t);
    GrownIs(t, DefOf(t, DEFS_9).value.columns);
  }

  lemma GrownIs(t: TableName, columns: seq<Column>)
    ensures t == SchemaCatalogs ==> Grown(t, columns) == CatalogColumnsOf(columns)
    ensures t == SchemaFields ==>
      Grown(t, columns) == WithColumn(WithColumn(columns, Text("field_type_name")), Flag("is_pk"))
    ensures t == SchemaArguments ==> Grown(t, columns) == WithColumn(columns, Text("arg_type_name"))
    ensures t !in {SchemaCatalogs, SchemaFields, SchemaArguments} ==> Grown(t, columns) == columns
  {
    hide WithColumn, CatalogColumnsOf;
  }

  /** 0.0.13 makes the twelve tables with the very columns, defaults and keys that 0.0.9 to 0.0.12 lead to
      on a database without them. */
  lemma ResetMatches(d: Db, d1: Db, d2: Db, t: TableName)
    requires Fresh(d) && ExecAll(BEFORE, d) == Some(d1) && ExecAll(SCRIPT_13, d1) == Some(d2) && t in TWELVE
    ensures t in d1 && t in d2 && d1[t].key == d2[t].key && SameColumns(d1[t].columns, d2[t].columns)
  {
    hide *;
    TableDefs(t);
    Migrated(d, d1, t);
    ResetShapes(d1, d2, t);
  }

  lemma ResetShapes(d: Db, d': Db, t: TableName)
    requires ExecAll(SCRIPT_13, d) == Some(d') && DefOf(t, DEFS_13).Some?
    ensures t in d' && d'[t].key == DefOf(t, DEFS_13).value.key && d'[t].columns == DefOf(t, DEFS_13).value.columns
  {
    Resets(t, Get(d, t));
    hide SCRIPT_13, DEFS_13, DefOf, On, ExecAll, IsReset;
    TablewiseAt(SCRIPT_13, d, t);
  }
}
