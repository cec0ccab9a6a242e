/** The shipped migration scripts 0.0.9 to 0.0.18 as statement lists, without the version write at the
    end of each (Runner models it) and without the index lists that only Postgres creates. */
module Scripts {
  import opened Strings
  import opened Sql
  import opened Replay

  function Col(name: string): Column { Column(name, Null) }
  function Text(name: string): Column { Column(name, Str("")) }
  function Flag(name: string): Column { Column(name, Bool(false)) }
  function JsonList(name: string): Column { Column(name, Str("[]")) }

  datatype Def = Def(name: TableName, columns: seq<Column>, key: seq<string>)

  const ORDINAL_COLUMN := Column("ordinal", Num(0))

  // The tables that 0.0.9 and 0.0.13 create alike.
  const CATALOG_DEPENDENCIES_DEF := Def(SchemaCatalogDependencies,
    [Col("catalog_name"), Col("depends_on")], ["catalog_name", "depends_on"])
  const TYPES_DEF := Def(SchemaTypes,
    [Col("name"), Col("kind"), Text("description"), Text("long_description"), Text("hugr_type"), Text("module"),
     Col("catalog"), JsonList("directives"), Text("interfaces"), Text("union_types"), Flag("is_summarized"),
     Col("vec")],
    ["name"])
  const ENUM_VALUES_DEF := Def(SchemaEnumValues,
    [Col("type_name"), Col("name"), Text("description"), JsonList("directives"), ORDINAL_COLUMN], ["type_name", "name"])
  const DIRECTIVES_DEF := Def(SchemaDirectives,
    [Col("name"), Text("description"), Text("locations"), Flag("is_repeatable"), JsonList("arguments")], ["name"])
  const MODULES_DEF := Def(SchemaModules,
    [Col("name"), Text("description"), Text("long_description"), Col("query_root"), Col("mutation_root"),
     Col("function_root"), Col("mut_function_root"), Flag("is_summarized"), Flag("disabled"), Col("vec")], ["name"])
  const MODULE_TYPE_CATALOGS_DEF := Def(SchemaModuleTypeCatalogs,
    [Col("module_name"), Col("type_name"), Col("catalog_name")], ["type_name", "catalog_name"])
  const DATA_OBJECTS_DEF := Def(SchemaDataObjects,
    [Col("name"), Col("filter_type_name"), Col("args_type_name")], ["name"])
  const DATA_OBJECT_QUERIES_DEF := Def(SchemaDataObjectQueries,
    [Col("name"), Col("object_name"), Col("query_root"), Col("query_type")], ["name", "object_name"])
  const SETTINGS_DEF := Def(SchemaSettings, [Col("key"), Col("value")], ["key"])

  // Those that 0.0.13 creates with the columns added in between.
  const CATALOGS_DEF_9 := Def(SchemaCatalogs,
    [Col("name"), Text("version"), Text("description"), Text("long_description"), Flag("is_summarized"),
     Flag("disabled"), Flag("suspended"), Col("vec")], ["name"])
  const CATALOGS_DEF_13 := Def(SchemaCatalogs,
    [Col("name"), Text("version"), Text("description"), Text("long_description"), Text("source_type"), Text("prefix"),
     Flag("as_module"), Flag("read_only"), Flag("is_summarized"), Flag("disabled"), Flag("suspended"), Col("vec")],
    ["name"])
  const FIELDS_DEF_9 := Def(SchemaFields,
    [Col("type_name"), Col("name"), Col("field_type"), Text("description"), Text("long_description"), Text("hugr_type"),
     Col("catalog"), Col("dependency_catalog"), JsonList("directives"), Flag("is_summarized"), Col("vec"),
     ORDINAL_COLUMN],
    ["type_name", "name"])
  const FIELDS_DEF_13 := Def(SchemaFields,
    [Col("type_name"), Col("name"), Col("field_type"), Text("field_type_name"), Text("description"),
     Text("long_description"), Text("hugr_type"), Col("catalog"), Col("dependency_catalog"), JsonList("directives"),
     Flag("is_pk"), Flag("is_summarized"), Col("vec"), ORDINAL_COLUMN],
    ["type_name", "name"])
  const ARGUMENTS_DEF_9 := Def(SchemaArguments,
    [Col("type_name"), Col("field_name"), Col("name"), Col("arg_type"), Col("default_value"), Text("description"),
     JsonList("directives"), ORDINAL_COLUMN],
    ["type_name", "field_name", "name"])
  const ARGUMENTS_DEF_13 := Def(SchemaArguments,
    [Col("type_name"), Col("field_name"), Col("name"), Col("arg_type"), Text("arg_type_name"), Col("default_value"),
     Text("description"), JsonList("directives"), ORDINAL_COLUMN],
    ["type_name", "field_name", "name"])

  const DEFS_9: seq<Def> := [
    CATALOGS_DEF_9, CATALOG_DEPENDENCIES_DEF, TYPES_DEF, FIELDS_DEF_9, ARGUMENTS_DEF_9, ENUM_VALUES_DEF, DIRECTIVES_DEF,
    MODULES_DEF, MODULE_TYPE_CATALOGS_DEF, DATA_OBJECTS_DEF, DATA_OBJECT_QUERIES_DEF, SETTINGS_DEF]
  const DEFS_13: seq<Def> := [
    CATALOGS_DEF_13, CATALOG_DEPENDENCIES_DEF, TYPES_DEF, FIELDS_DEF_13, ARGUMENTS_DEF_13, ENUM_VALUES_DEF,
    DIRECTIVES_DEF,
    MODULES_DEF, MODULE_TYPE_CATALOGS_DEF, DATA_OBJECTS_DEF, DATA_OBJECT_QUERIES_DEF, SETTINGS_DEF]

  /** The tables that 0.0.13 drops, in its order. */
  const DROPPED: seq<TableName> := [
    SchemaDataObjectQueries, SchemaDataObjects, SchemaModuleTypeCatalogs, SchemaModules, SchemaCatalogDependencies,
    SchemaEnumValues, SchemaArguments, SchemaFields, SchemaTypes, SchemaDirectives, SchemaSettings, SchemaCatalogs]

  function Creates(defs: seq<Def>, ifNotExists: bool): seq<Stmt> {
    if defs == [] then []
    else [CreateTable(defs[0].name, defs[0].columns, defs[0].key, ifNotExists)] + Creates(defs[1..], ifNotExists)
  }

  function Drops(names: seq<TableName>): seq<Stmt> {
    if names == [] then [] else [DropTable(names[0])] + Drops(names[1..])
  }

  const SCRIPT_9 := Creates(DEFS_9, true)

  const SCRIPT_10: seq<Stmt> := [
    CreateIndex(SchemaTypes, ["catalog"]), CreateIndex(SchemaTypes, ["hugr_type"]), CreateIndex(SchemaTypes, ["kind"]),
    CreateIndex(SchemaFields, ["type_name"]), CreateIndex(SchemaFields, ["catalog"]),
    CreateIndex(SchemaFields, ["hugr_type"]),
    CreateIndex(SchemaFields, ["dependency_catalog"]),
    CreateIndex(SchemaArguments, ["type_name"]), CreateIndex(SchemaArguments, ["type_name", "field_name"]),
    CreateIndex(SchemaEnumValues, ["type_name"]), CreateIndex(SchemaModuleTypeCatalogs, ["catalog_name"]),
    CreateIndex(SchemaDataObjectQueries, ["object_name"]), CreateIndex(SchemaCatalogDependencies, ["depends_on"])]

  function Unset(col: string): Cond { Or(Eq(col, Str("")), IsNull(col)) }

  const BACKFILL_FIELDS :=
    Update(SchemaFields, [Assign("field_type_name", StripOf("field_type"))], Unset("field_type_name"))
  const BACKFILL_ARGUMENTS :=
    Update(SchemaArguments, [Assign("arg_type_name", StripOf("arg_type"))], Unset("arg_type_name"))

  const SCRIPT_11: seq<Stmt> := [
    AddColumn(SchemaFields, Text("field_type_name")),
    AddColumn(SchemaArguments, Text("arg_type_name")),
    BACKFILL_FIELDS,
    BACKFILL_ARGUMENTS]

  const SCHEMA_VERSION := Insert(SchemaSettings, map["key" := Str("schema_version"), "value" := Str("\"0\"")])

  const SCRIPT_12: seq<Stmt> := [
    AddColumn(SchemaCatalogs, Text("source_type")), AddColumn(SchemaCatalogs, Text("prefix")),
    AddColumn(SchemaCatalogs, Flag("as_module")), AddColumn(SchemaCatalogs, Flag("read_only")),
    AddColumn(SchemaFields, Flag("is_pk")),
    CreateTable(ClusterNodes,
      [Col("name"), Col("url"), Col("role"), Col("version"), Col("started_at"), Col("last_heartbeat")], ["name"], true),
    SCHEMA_VERSION]

  const SCRIPT_13 := Drops(DROPPED) + (Creates(DEFS_13, false) + (SCRIPT_10 + [SCHEMA_VERSION]))

  const SCRIPT_14: seq<Stmt> := [
    Update(SchemaCatalogs, [Assign("version", Lit(Str("")))], All),
    DeleteKey(SchemaSettings, [Str("system_types_version")])]

  const SCRIPT_15: seq<Stmt> := [
    Update(SchemaFields, [Assign("dependency_catalog", Lit(Null))],
      Or(Eq("hugr_type", Str("submodule")), Eq("catalog", Str("_system")))),
    Update(SchemaFields, [Assign("dependency_catalog", Lit(Null)), Assign("catalog", Lit(Str("_system")))],
      And(OneOf("type_name", [Str("Query"), Str("Mutation")]), OneOf("name", [Str("function")])))]

  const SCRIPT_16: seq<Stmt> := [
    Insert(SchemaModuleTypeCatalogs, map["module_name" := Str("core.catalog"),
      "type_name" := Str("_module_core_catalog_query"), "catalog_name" := Str("core")])]

  const SCRIPT_17: seq<Stmt> := [
    AddColumn(SchemaModules, Col("subscription_root")),
    Update(SchemaModules, [Assign("subscription_root", Lit(Str("Subscription")))], Eq("name", Str("")))]

  const SCRIPT_18: seq<Stmt> := [
    AddColumn(Roles, Flag("can_impersonate")),
    Update(Roles, [Assign("can_impersonate", Lit(Bool(true)))], Eq("name", Str("admin")))]

  // ---- The statements before and after the reset never spoil each other ----

  predicate NoDrop(s: Stmt) { !s.DropTable? }

  lemma StructuralHead(s: Stmt, ss: seq<Stmt>)
    requires Structural(s) && forall t | t in ss :: NoDrop(t)
    ensures HeadKept(s, ss)
  {
  }

  lemma {:induction false} StructuralKept(ss: seq<Stmt>)
    requires forall s | s in ss :: Structural(s)
    ensures PairwiseKept(ss)
  {
    if ss != [] {
      StructuralKept(ss[1..]);
    }
  }

  lemma {:induction false} CreatesFacts(defs: seq<Def>, ifNotExists: bool)
    ensures forall s | s in Creates(defs, ifNotExists) :: s.CreateTable? && s.ifNotExists == ifNotExists
  {
    if defs != [] { CreatesFacts(defs[1..], ifNotExists); }
  }

  const BEFORE := SCRIPT_9 + (SCRIPT_10 + (SCRIPT_11 + SCRIPT_12))
  const AFTER := SCRIPT_14 + (SCRIPT_15 + (SCRIPT_16 + (SCRIPT_17 + SCRIPT_18)))

  /** Statements on other tables cannot spoil s. */
  ghost predicate Elsewhere(s: Stmt, ss: seq<Stmt>) {
    forall t | t in ss :: t.table != s.table
  }

  lemma OneAssignment(col: string, e: Expr, cond: Cond)
    ensures SetCols([Assign(col, e)]) == {col} && SetReads([Assign(col, e)]) == ExprReads(e)
    ensures Mentions([Assign(col, e)], cond) == {col} + ExprReads(e) + CondReads(cond)
  {
    var sets := [Assign(col, e)];
    assert sets[1..] == [];
    assert SetCols(sets) == {col} + SetCols([]) && SetReads(sets) == ExprReads(e) + SetReads([]);
  }

  lemma FixColumns()
    ensures SetCols(SCRIPT_15[0].sets) == {"dependency_catalog"}
    ensures SetCols(SCRIPT_15[1].sets) == {"dependency_catalog", "catalog"}
    ensures SetReads(SCRIPT_15[0].sets) == {} && SetReads(SCRIPT_15[1].sets) == {}
  {
    OneAssignment("dependency_catalog", Lit(Null), All);
    var sets := SCRIPT_15[1].sets;
    assert sets[1..] == [Assign("catalog", Lit(Str("_system")))];
    OneAssignment("catalog", Lit(Str("_system")), All);
  }

  lemma BackfillPairs()
    ensures Keeps(BACKFILL_FIELDS, AddColumn(SchemaFields, Flag("is_pk")))
    ensures Keeps(BACKFILL_FIELDS, SCRIPT_15[0]) && Keeps(BACKFILL_FIELDS, SCRIPT_15[1])
  {
    OneAssignment("field_type_name", StripOf("field_type"), Unset("field_type_name"));
    FixColumns();
  }

  lemma FieldsIn12()
    ensures forall t | t in SCRIPT_12 && t.table == SchemaFields :: t == AddColumn(SchemaFields, Flag("is_pk"))
  {
  }

  /** The backfills are only followed by column additions and updates of other columns. */
  lemma BackfillFieldsKept()
    ensures HeadKept(BACKFILL_FIELDS, SCRIPT_12)
    ensures HeadKept(BACKFILL_FIELDS, SCRIPT_15)
  {
    hide *;
    BackfillKept12();
    BackfillKept15();
  }

  lemma BackfillTable()
    ensures BACKFILL_FIELDS.table == SchemaFields
  {
  }

  lemma BackfillKept12()
    ensures HeadKept(BACKFILL_FIELDS, SCRIPT_12)
  {
    hide Keeps, SCRIPT_12, SCRIPT_15, BACKFILL_FIELDS;
    BackfillTable();
    BackfillPairs();
    FieldsIn12();
  }

  lemma BackfillKept15()
    ensures HeadKept(BACKFILL_FIELDS, SCRIPT_15)
  {
    TwoUpdates();
    hide Keeps, SCRIPT_15, BACKFILL_FIELDS;
    BackfillPairs();
  }

  lemma TwoUpdates()
    ensures |SCRIPT_15| == 2 && forall t | t in SCRIPT_15 :: t == SCRIPT_15[0] || t == SCRIPT_15[1]
  {
  }

  lemma VersionRowKept()
    ensures HeadKept(SCHEMA_VERSION, SCRIPT_14)
  {
    var gone := Str("system_types_version");
    assert gone in [gone];
    assert gone !in SCHEMA_VERSION.values.Values;
    assert Keeps(SCHEMA_VERSION, SCRIPT_14[1]);
  }

  /** 0.0.15: the second update makes the first one's rows, and leaves them as the first one would. */
  lemma FixPair()
    ensures Keeps(SCRIPT_15[0], SCRIPT_15[1])
  {
    FixColumns();
    var sets, sets' := SCRIPT_15[0].sets, SCRIPT_15[1].sets;
    assert sets'[..1] == sets;
    assert sets'[1..] == [Assign("catalog", Lit(Str("_system")))];
    OneAssignment("catalog", Lit(Str("_system")), All);
    assert Continues(sets, sets');
  }

  lemma ElsewhereKept(s: Stmt, ss: seq<Stmt>)
    requires Elsewhere(s, ss)
    ensures HeadKept(s, ss)
  {
  }

  lemma TableOf12()
    ensures forall t | t in SCRIPT_12 :: t.table != SchemaArguments && NoDrop(t)
  {
    hide SCHEMA_VERSION, SCRIPT_14, SCRIPT_15, SCRIPT_16, SCRIPT_17, SCRIPT_18;
    assert SCHEMA_VERSION.table == SchemaSettings && NoDrop(SCHEMA_VERSION) by { VersionRowTable(); }
  }

  lemma VersionRowTable()
    ensures SCHEMA_VERSION.table == SchemaSettings && NoDrop(SCHEMA_VERSION)
  {
  }

  lemma TableOf14()
    ensures forall t | t in SCRIPT_14 :: t.table in {SchemaCatalogs, SchemaSettings} && NoDrop(t)
  {
  }

  lemma TableOf15()
    ensures forall t | t in SCRIPT_15 :: t.table == SchemaFields && NoDrop(t)
  {
  }

  lemma TableOf16()
    ensures forall t | t in SCRIPT_16 :: t.table == SchemaModuleTypeCatalogs && NoDrop(t)
  {
  }

  lemma TableOf17()
    ensures forall t | t in SCRIPT_17 :: t.table == SchemaModules && NoDrop(t)
  {
  }

  lemma TableOf18()
    ensures forall t | t in SCRIPT_18 :: t.table == Roles && NoDrop(t)
  {
  }

  lemma TableOf()
    ensures forall t | t in SCRIPT_12 :: t.table != SchemaArguments && NoDrop(t)
    ensures forall t | t in SCRIPT_14 :: t.table in {SchemaCatalogs, SchemaSettings} && NoDrop(t)
    ensures forall t | t in SCRIPT_15 :: t.table == SchemaFields && NoDrop(t)
    ensures forall t | t in SCRIPT_16 :: t.table == SchemaModuleTypeCatalogs && NoDrop(t)
    ensures forall t | t in SCRIPT_17 :: t.table == SchemaModules && NoDrop(t)
    ensures forall t | t in SCRIPT_18 :: t.table == Roles && NoDrop(t)
  {
    hide SCRIPT_12, SCRIPT_14, SCRIPT_15, SCRIPT_16, SCRIPT_17, SCRIPT_18, NoDrop;
    TableOf12(); TableOf14(); TableOf15(); TableOf16(); TableOf17(); TableOf18();
  }

  lemma AfterTables()
    ensures forall t | t in AFTER :: NoDrop(t) && t.table != SchemaArguments
    ensures forall t | t in AFTER && t.table == SchemaFields :: t in SCRIPT_15
    ensures forall t | t in AFTER && t.table == SchemaSettings :: t in SCRIPT_14
  {
    hide SCRIPT_9, SCRIPT_10, SCRIPT_11, SCRIPT_12, SCRIPT_14, SCRIPT_15, SCRIPT_16, SCRIPT_17, SCRIPT_18, Keeps;
    TableOf();
    assert forall t :: t in AFTER <==>
        t in SCRIPT_14 || t in SCRIPT_15 || t in SCRIPT_16 || t in SCRIPT_17 || t in SCRIPT_18;
  }

  lemma OneKept(s: Stmt)
    ensures PairwiseKept([s])
  {
    assert [s][1..] == [];
    assert PairwiseKept([]);
  }

  lemma TwoKept(s: Stmt, t: Stmt)
    requires s.table == t.table ==> Keeps(s, t)
    ensures PairwiseKept([s, t])
  {
    OneKept(t);
    assert [s, t][1..] == [t];
  }

  lemma Apart(xs: seq<Stmt>, ys: seq<Stmt>)
    requires PairwiseKept(xs) && PairwiseKept(ys) && forall x | x in xs :: Elsewhere(x, ys)
    ensures PairwiseKept(xs + ys)
  {
    hide Keeps, PairwiseKept, Elsewhere, HeadKept;
    forall x | x in xs ensures HeadKept(x, ys) { ElsewhereKept(x, ys); }
    KeptConcat(xs, ys);
  }

  lemma ScriptsKept()
    ensures PairwiseKept(SCRIPT_14) && PairwiseKept(SCRIPT_15) && PairwiseKept(SCRIPT_16)
    ensures PairwiseKept(SCRIPT_17) && PairwiseKept(SCRIPT_18)
  {
    hide Keeps, PairwiseKept;
    FixPair();
    TwoKept(SCRIPT_14[0], SCRIPT_14[1]);
    TwoKept(SCRIPT_15[0], SCRIPT_15[1]);
    OneKept(SCRIPT_16[0]);
    StructuralFirst(SCRIPT_17[0], SCRIPT_17[1]);
    StructuralFirst(SCRIPT_18[0], SCRIPT_18[1]);
  }

  lemma AfterKept()
    ensures PairwiseKept(AFTER)
  {
    hide SCRIPT_9, SCRIPT_10, SCRIPT_11, SCRIPT_12, SCRIPT_14, SCRIPT_15, SCRIPT_16, SCRIPT_17, SCRIPT_18;
    hide Keeps, PairwiseKept, HeadKept;
    TableOf();
    ScriptsKept();
    Apart(SCRIPT_17, SCRIPT_18);
    Apart(SCRIPT_16, SCRIPT_17 + SCRIPT_18);
    Apart(SCRIPT_15, SCRIPT_16 + (SCRIPT_17 + SCRIPT_18));
    Apart(SCRIPT_14, SCRIPT_15 + (SCRIPT_16 + (SCRIPT_17 + SCRIPT_18)));
  }

  lemma StructuralFirst(s: Stmt, t: Stmt)
    requires Structural(s) && NoDrop(t)
    ensures PairwiseKept([s, t])
  {
    TwoKept(s, t);
  }

  lemma Prepend(s: Stmt, ss: seq<Stmt>)
    requires HeadKept(s, ss) && PairwiseKept(ss)
    ensures PairwiseKept([s] + ss)
  {
    assert ([s] + ss)[1..] == ss;
  }

  /** A run of structural statements goes in front of anything that drops no table. */
  lemma StructuralFront(xs: seq<Stmt>, ys: seq<Stmt>)
    requires (forall x | x in xs :: Structural(x)) && (forall y | y in ys :: NoDrop(y))
    requires PairwiseKept(ys)
    ensures PairwiseKept(xs + ys)
  {
    hide Keeps, Structural;
    forall x | x in xs ensures HeadKept(x, ys) { StructuralHead(x, ys); }
    StructuralKept(xs);
    KeptConcat(xs, ys);
  }

  lemma Shapes()
    ensures |SCRIPT_12| >= 6 && |SCRIPT_11| >= 2
    ensures SCRIPT_12 == SCRIPT_12[..6] + [SCHEMA_VERSION] && forall s | s in SCRIPT_12[..6] :: Structural(s)
    ensures SCRIPT_11 == SCRIPT_11[..2] + [BACKFILL_FIELDS, BACKFILL_ARGUMENTS]
    ensures forall s | s in SCRIPT_11[..2] :: Structural(s)
    ensures (forall s | s in SCRIPT_10 :: Structural(s)) && (forall s | s in SCRIPT_9 :: Structural(s))
    ensures (forall s | s in SCRIPT_10 :: NoDrop(s)) && (forall s | s in SCRIPT_11 :: NoDrop(s))
    ensures SCHEMA_VERSION.table == SchemaSettings && NoDrop(SCHEMA_VERSION)
    ensures BACKFILL_FIELDS.table == SchemaFields && BACKFILL_ARGUMENTS.table == SchemaArguments
  {
    CreatesFacts(DEFS_9, true);
  }

  lemma VersionRowKeptAfter()
    ensures HeadKept(SCHEMA_VERSION, AFTER)
  {
    hide SCRIPT_9, SCRIPT_10, SCRIPT_11, SCRIPT_12, SCRIPT_14, SCRIPT_15, SCRIPT_16, SCRIPT_17, SCRIPT_18;
    hide Keeps, AFTER, SCHEMA_VERSION;
    VersionRowKept();
    AfterTables();
    Shapes();
  }

  lemma BackfillsKeptAfter()
    ensures HeadKept(BACKFILL_ARGUMENTS, SCRIPT_12 + AFTER)
    ensures HeadKept(BACKFILL_FIELDS, [BACKFILL_ARGUMENTS] + (SCRIPT_12 + AFTER))
  {
    hide SCRIPT_9, SCRIPT_10, SCRIPT_11, SCRIPT_12, SCRIPT_14, SCRIPT_15, SCRIPT_16, SCRIPT_17, SCRIPT_18;
    hide Keeps, AFTER, BACKFILL_FIELDS, BACKFILL_ARGUMENTS;
    BackfillFieldsKept();
    AfterTables();
    TableOf();
    Shapes();
  }

  lemma Kept12()
    ensures PairwiseKept(SCRIPT_12 + AFTER)
  {
    hide SCRIPT_9, SCRIPT_10, SCRIPT_11, SCRIPT_12, SCRIPT_14, SCRIPT_15, SCRIPT_16, SCRIPT_17, SCRIPT_18;
    hide Keeps, PairwiseKept, HeadKept, Structural, AFTER, SCHEMA_VERSION, BACKFILL_FIELDS, BACKFILL_ARGUMENTS;
    AfterKept();
    AfterTables();
    Shapes();
    VersionRowKeptAfter();
    Prepend(SCHEMA_VERSION, AFTER);
    StructuralFront(SCRIPT_12[..6], [SCHEMA_VERSION] + AFTER);
    assert SCRIPT_12 + AFTER == SCRIPT_12[..6] + ([SCHEMA_VERSION] + AFTER);
  }

  lemma Kept11()
    ensures PairwiseKept(SCRIPT_11 + (SCRIPT_12 + AFTER))
  {
    hide SCRIPT_9, SCRIPT_10, SCRIPT_11, SCRIPT_12, SCRIPT_14, SCRIPT_15, SCRIPT_16, SCRIPT_17, SCRIPT_18;
    hide Keeps, PairwiseKept, HeadKept, Structural, AFTER, SCHEMA_VERSION, BACKFILL_FIELDS, BACKFILL_ARGUMENTS;
    Kept12();
    AfterTables();
    TableOf();
    Shapes();
    BackfillsKeptAfter();
    var rest := SCRIPT_12 + AFTER;
    Prepend(BACKFILL_ARGUMENTS, rest);
    Prepend(BACKFILL_FIELDS, [BACKFILL_ARGUMENTS] + rest);
    var backfills := [BACKFILL_FIELDS] + ([BACKFILL_ARGUMENTS] + rest);
    assert SCRIPT_11 + rest == SCRIPT_11[..2] + backfills;
    forall t | t in backfills ensures NoDrop(t) {
      assert t in [BACKFILL_FIELDS, BACKFILL_ARGUMENTS] ==> t in SCRIPT_11;
    }
    StructuralFront(SCRIPT_11[..2], backfills);
  }

  /** No statement before or after the reset spoils what an earlier one left. */
  lemma AllKept()
    ensures PairwiseKept(BEFORE + AFTER)
  {
    hide SCRIPT_9, SCRIPT_10, SCRIPT_11, SCRIPT_12, SCRIPT_14, SCRIPT_15, SCRIPT_16, SCRIPT_17, SCRIPT_18;
    hide Keeps, PairwiseKept, HeadKept, Structural, AFTER, SCHEMA_VERSION, BACKFILL_FIELDS, BACKFILL_ARGUMENTS;
    Kept11();
    AfterTables();
    TableOf();
    Shapes();
    var rest := SCRIPT_11 + (SCRIPT_12 + AFTER);
    assert forall t :: t in rest ==> t in SCRIPT_11 || t in SCRIPT_12 || t in AFTER;
    StructuralFront(SCRIPT_10, rest);
    StructuralFront(SCRIPT_9, SCRIPT_10 + rest);
    assert BEFORE + AFTER == SCRIPT_9 + (SCRIPT_10 + rest);
  }

  lemma UpdatesRepeatable()
    ensures Repeatable(BACKFILL_FIELDS) && Repeatable(BACKFILL_ARGUMENTS)
    ensures Repeatable(SCRIPT_14[0]) && Repeatable(SCRIPT_15[0]) && Repeatable(SCRIPT_15[1])
    ensures Repeatable(SCRIPT_17[1]) && Repeatable(SCRIPT_18[1])
  {
    OneAssignment("field_type_name", StripOf("field_type"), All);
    OneAssignment("arg_type_name", StripOf("arg_type"), All);
    OneAssignment("version", Lit(Str("")), All);
    OneAssignment("subscription_root", Lit(Str("Subscription")), All);
    OneAssignment("can_impersonate", Lit(Bool(true)), All);
    FixColumns();
  }

  lemma BeforeRepeatable()
    ensures AllRepeatable(BEFORE)
  {
    UpdatesRepeatable();
    CreatesFacts(DEFS_9, true);
    assert AllRepeatable(SCRIPT_9);
    SimpleRepeatable();
    hide Repeatable, SCRIPT_9, SCRIPT_10, SCRIPT_11, SCRIPT_12;
  }

  lemma StructuralRepeatable(ss: seq<Stmt>)
    requires forall s | s in ss :: Structural(s)
    ensures AllRepeatable(ss)
  {
  }

  lemma VersionRowRepeatable()
    ensures Repeatable(SCHEMA_VERSION)
  {
  }

  lemma SimpleRepeatable()
    ensures AllRepeatable(SCRIPT_10) && AllRepeatable(SCRIPT_11) && AllRepeatable(SCRIPT_12)
  {
    hide SCRIPT_9, SCRIPT_10, SCRIPT_11, SCRIPT_12, BACKFILL_FIELDS, BACKFILL_ARGUMENTS, SCHEMA_VERSION;
    hide Repeatable, Structural;
    Shapes();
    UpdatesRepeatable();
    VersionRowRepeatable();
    StructuralRepeatable(SCRIPT_10);
    StructuralRepeatable(SCRIPT_11[..2]);
    StructuralRepeatable(SCRIPT_12[..6]);
    BothRepeatable(SCRIPT_11[..2], [BACKFILL_FIELDS, BACKFILL_ARGUMENTS]);
    BothRepeatable(SCRIPT_12[..6], [SCHEMA_VERSION]);
  }

  lemma LaterRepeatable()
    ensures AllRepeatable(SCRIPT_14) && AllRepeatable(SCRIPT_15) && AllRepeatable(SCRIPT_16)
    ensures AllRepeatable(SCRIPT_17) && AllRepeatable(SCRIPT_18)
  {
    UpdatesRepeatable();
    hide BACKFILL_FIELDS, BACKFILL_ARGUMENTS;
  }

  lemma AfterRepeatable()
    ensures AllRepeatable(AFTER)
  {
    hide Repeatable, SCRIPT_14, SCRIPT_15, SCRIPT_16, SCRIPT_17, SCRIPT_18;
    LaterRepeatable();
  }

  // ---- The reset ----

  predicate IsReset(t: TableName) { t in DROPPED }

  function DefOf(t: TableName, defs: seq<Def>): Option<Def> {
    if defs == [] then None else if defs[0].name == t then Some(defs[0]) else DefOf(t, defs[1..])
  }

  function Blank(d: Def): Table { Table(d.columns, d.key, map[]) }

  /** A table as 0.0.13 leaves it: empty, but for the schema version in the settings. */
  function ResetTable(t: TableName): Table
    requires DefOf(t, DEFS_13).Some?
  {
    var blank := Blank(DefOf(t, DEFS_13).value);
    if t == SchemaSettings then
      blank.(rows := map[[Str("schema_version")] := map["key" := Str("schema_version"), "value" := Str("\"0\"")]])
    else blank
  }

  lemma {:induction false} OnDrops(t: TableName, names: seq<TableName>, slot: Option<Table>)
    ensures On(t, Drops(names), slot) == Some(if t in names then None else slot)
  {
    if names != [] {
      OnDrops(t, names[1..], if t == names[0] then None else slot);
      assert Drops(names)[1..] == Drops(names[1..]);
    }
  }

  ghost predicate DistinctNames(defs: seq<Def>) {
    forall i, j | 0 <= i < j < |defs| :: defs[i].name != defs[j].name
  }

  lemma {:induction false} OnCreates(t: TableName, defs: seq<Def>, slot: Option<Table>)
    requires DistinctNames(defs)
    requires slot.Some? ==> DefOf(t, defs).None?
    ensures On(t, Creates(defs, false), slot) ==
              Some(if DefOf(t, defs).Some? then Some(Blank(DefOf(t, defs).value)) else slot)
  {
    if defs != [] {
      assert Creates(defs, false)[1..] == Creates(defs[1..], false);
      if defs[0].name == t {
        NotDefined(t, defs[1..]);
        OnCreates(t, defs[1..], Some(Blank(defs[0])));
      } else {
        OnCreates(t, defs[1..], slot);
      }
    }
  }

  lemma {:induction false} NotDefined(t: TableName, defs: seq<Def>)
    requires forall d | d in defs :: d.name != t
    ensures DefOf(t, defs) == None
  {
    if defs != [] { NotDefined(t, defs[1..]); }
  }

  lemma {:induction false} DefinedAt(defs: seq<Def>, i: nat)
    requires i < |defs| && DistinctNames(defs)
    ensures DefOf(defs[i].name, defs) == Some(defs[i])
  {
    if i > 0 { DefinedAt(defs[1..], i - 1); }
  }

  lemma NamesDistinct()
    ensures DistinctNames(DEFS_13)
  {
    DefNames();
    hide DEFS_13;
  }

  lemma ResetDef(t: TableName)
    ensures IsReset(t) <==> DefOf(t, DEFS_13).Some?
  {
    NamesDistinct();
    NotDropped();
    hide DEFS_13, DefOf, IsReset;
    if IsReset(t) {
      var i := DroppedDefined(t);
      DefinedAt(DEFS_13, i);
    } else {
      NotDefined(t, DEFS_13);
    }
  }

  lemma ResetDefs()
    ensures DistinctNames(DEFS_13)
    ensures forall t :: IsReset(t) <==> DefOf(t, DEFS_13).Some?
  {
    NamesDistinct();
    hide DEFS_13, DefOf, IsReset, DistinctNames;
    forall t { ResetDef(t); }
  }

  lemma DroppedDefined(t: TableName) returns (i: nat)
    requires IsReset(t)
    ensures i < |DEFS_13| && DEFS_13[i].name == t
  {
    DefNames();
    hide DEFS_13;
    i :| 0 <= i < |DEFS_13| && DEFS_13[i].name == t;
  }

  lemma NotDropped()
    ensures forall d | d in DEFS_13 :: IsReset(d.name)
  {
    DefNames();
    hide DEFS_13;
  }

  lemma DefinedTables()
    ensures DefOf(SchemaCatalogs, DEFS_13) == Some(CATALOGS_DEF_13) && DefOf(SchemaTypes, DEFS_13) == Some(TYPES_DEF)
    ensures DefOf(SchemaFields, DEFS_13) == Some(FIELDS_DEF_13)
    ensures DefOf(SchemaArguments, DEFS_13) == Some(ARGUMENTS_DEF_13)
    ensures DefOf(SchemaEnumValues, DEFS_13) == Some(ENUM_VALUES_DEF)
    ensures DefOf(SchemaSettings, DEFS_13) == Some(SETTINGS_DEF)
    ensures DefOf(SchemaModuleTypeCatalogs, DEFS_13) == Some(MODULE_TYPE_CATALOGS_DEF)
    ensures DefOf(SchemaDataObjectQueries, DEFS_13) == Some(DATA_OBJECT_QUERIES_DEF)
    ensures DefOf(SchemaCatalogDependencies, DEFS_13) == Some(CATALOG_DEPENDENCIES_DEF)
  {
    hide DefOf;
    DefNames();
    assert DistinctNames(DEFS_13) by { ResetDefs(); }
    forall i | 0 <= i < |DEFS_13| ensures DefOf(DEFS_13[i].name, DEFS_13) == Some(DEFS_13[i]) { DefinedAt(DEFS_13, i); }
    assert DEFS_13[0] == CATALOGS_DEF_13 && DEFS_13[1] == CATALOG_DEPENDENCIES_DEF && DEFS_13[2] == TYPES_DEF;
    assert DEFS_13[3] == FIELDS_DEF_13 && DEFS_13[4] == ARGUMENTS_DEF_13 && DEFS_13[5] == ENUM_VALUES_DEF;
    assert DEFS_13[8] == MODULE_TYPE_CATALOGS_DEF && DEFS_13[10] == DATA_OBJECT_QUERIES_DEF;
    assert DEFS_13[11] == SETTINGS_DEF;
  }

  lemma DefNames()
    ensures |DEFS_13| == 12
    ensures DEFS_13[0].name == SchemaCatalogs && DEFS_13[1].name == SchemaCatalogDependencies
    ensures DEFS_13[2].name == SchemaTypes && DEFS_13[3].name == SchemaFields && DEFS_13[4].name == SchemaArguments
    ensures DEFS_13[5].name == SchemaEnumValues && DEFS_13[6].name == SchemaDirectives
    ensures DEFS_13[7].name == SchemaModules && DEFS_13[8].name == SchemaModuleTypeCatalogs
    ensures DEFS_13[9].name == SchemaDataObjects && DEFS_13[10].name == SchemaDataObjectQueries
    ensures DEFS_13[11].name == SchemaSettings
  {
  }

  lemma {:induction false} NameAt(columns: seq<Column>, i: nat)
    requires i < |columns|
    ensures columns[i].name in Names(columns)
  {
    if i > 0 { NameAt(columns[1..], i - 1); }
  }

  /** The recreated table t has column c, if t is recreated at all. */
  predicate HasColumn(t: TableName, c: string) {
    DefOf(t, DEFS_13).Some? ==> c in Names(DefOf(t, DEFS_13).value.columns)
  }

  lemma HasAt(t: TableName, d: Def, i: nat)
    requires DefOf(t, DEFS_13) == Some(d) && i < |d.columns|
    ensures HasColumn(t, d.columns[i].name)
  {
    hide DefOf, DEFS_13;
    NameAt(d.columns, i);
  }

  lemma TypesColumns()
    ensures HasColumn(SchemaTypes, "catalog") && HasColumn(SchemaTypes, "hugr_type") && HasColumn(SchemaTypes, "kind")
  {
    hide HasColumn, DEFS_13, DefOf;
    DefinedTables();
    HasAt(SchemaTypes, TYPES_DEF, 6); HasAt(SchemaTypes, TYPES_DEF, 4); HasAt(SchemaTypes, TYPES_DEF, 1);
  }

  lemma FieldsColumns()
    ensures HasColumn(SchemaFields, "type_name") && HasColumn(SchemaFields, "catalog")
    ensures HasColumn(SchemaFields, "hugr_type")
    ensures HasColumn(SchemaFields, "dependency_catalog") && HasColumn(SchemaFields, "is_pk")
    ensures HasColumn(SchemaFields, "field_type") && HasColumn(SchemaFields, "field_type_name")
  {
    hide HasColumn, DEFS_13, DefOf;
    DefinedTables();
    var d := FIELDS_DEF_13;
    HasAt(SchemaFields, d, 0); HasAt(SchemaFields, d, 7); HasAt(SchemaFields, d, 6);
    HasAt(SchemaFields, d, 8); HasAt(SchemaFields, d, 10); HasAt(SchemaFields, d, 2); HasAt(SchemaFields, d, 3);
  }

  lemma ArgumentsColumns()
    ensures HasColumn(SchemaArguments, "type_name") && HasColumn(SchemaArguments, "field_name")
    ensures HasColumn(SchemaArguments, "arg_type") && HasColumn(SchemaArguments, "arg_type_name")
  {
    hide HasColumn, DEFS_13, DefOf;
    DefinedTables();
    var d := ARGUMENTS_DEF_13;
    HasAt(SchemaArguments, d, 0); HasAt(SchemaArguments, d, 1); HasAt(SchemaArguments, d, 3);
    HasAt(SchemaArguments, d, 4);
  }

  lemma OtherColumns()
    ensures HasColumn(SchemaEnumValues, "type_name") && HasColumn(SchemaModuleTypeCatalogs, "catalog_name")
    ensures HasColumn(SchemaDataObjectQueries, "object_name") && HasColumn(SchemaCatalogDependencies, "depends_on")
    ensures HasColumn(SchemaSettings, "key") && HasColumn(SchemaSettings, "value")
  {
    hide HasColumn, DEFS_13, DefOf;
    DefinedTables();
    HasAt(SchemaEnumValues, ENUM_VALUES_DEF, 0); HasAt(SchemaModuleTypeCatalogs, MODULE_TYPE_CATALOGS_DEF, 2);
    HasAt(SchemaDataObjectQueries, DATA_OBJECT_QUERIES_DEF, 1);
    HasAt(SchemaCatalogDependencies, CATALOG_DEPENDENCIES_DEF, 1);
    HasAt(SchemaSettings, SETTINGS_DEF, 0); HasAt(SchemaSettings, SETTINGS_DEF, 1);
  }

  lemma CatalogsColumns()
    ensures HasColumn(SchemaCatalogs, "source_type") && HasColumn(SchemaCatalogs, "prefix")
    ensures HasColumn(SchemaCatalogs, "as_module") && HasColumn(SchemaCatalogs, "read_only")
  {
    hide HasColumn, DEFS_13, DefOf;
    DefinedTables();
    var d := CATALOGS_DEF_13;
    HasAt(SchemaCatalogs, d, 4); HasAt(SchemaCatalogs, d, 5); HasAt(SchemaCatalogs, d, 6); HasAt(SchemaCatalogs, d, 7);
  }

  /** The column names that a structural statement needs to find, to change nothing. */
  function Needs(s: Stmt): seq<string> {
    match s
    case CreateIndex(_, on) => on
    case AddColumn(_, c) => [c.name]
    case _ => []
  }

  ghost predicate Met(s: Stmt) { forall c | c in Needs(s) :: HasColumn(s.table, c) }

  lemma Index1(t: TableName, c: string)
    requires HasColumn(t, c)
    ensures Met(CreateIndex(t, [c]))
  {
    hide HasColumn;
  }

  lemma Index2(t: TableName, c: string, c': string)
    requires HasColumn(t, c) && HasColumn(t, c')
    ensures Met(CreateIndex(t, [c, c']))
  {
    hide HasColumn;
  }

  lemma Added(t: TableName, c: Column)
    requires HasColumn(t, c.name)
    ensures Met(AddColumn(t, c))
  {
    hide HasColumn;
  }

  /** Every column that 0.0.10 indexes is in the recreated tables. */
  lemma Met10()
    ensures forall s | s in SCRIPT_10 :: Met(s)
  {
    hide HasColumn, Met;
    TypesColumns(); FieldsColumns(); ArgumentsColumns(); OtherColumns();
    Index1(SchemaTypes, "catalog"); Index1(SchemaTypes, "hugr_type"); Index1(SchemaTypes, "kind");
    Index1(SchemaFields, "type_name"); Index1(SchemaFields, "catalog"); Index1(SchemaFields, "hugr_type");
    Index1(SchemaFields, "dependency_catalog");
    Index1(SchemaArguments, "type_name"); Index2(SchemaArguments, "type_name", "field_name");
    Index1(SchemaEnumValues, "type_name"); Index1(SchemaModuleTypeCatalogs, "catalog_name");
    Index1(SchemaDataObjectQueries, "object_name"); Index1(SchemaCatalogDependencies, "depends_on");
  }

  /** Every column that 0.0.11 and 0.0.12 add is in the recreated tables. */
  lemma MetAdded()
    ensures forall s | s in SCRIPT_11[..2] :: Met(s)
    ensures forall s | s in SCRIPT_12[..6] :: Met(s)
  {
    hide HasColumn, Met;
    FieldsColumns(); ArgumentsColumns(); CatalogsColumns();
    Added(SchemaFields, Text("field_type_name")); Added(SchemaArguments, Text("arg_type_name"));
    Added(SchemaCatalogs, Text("source_type")); Added(SchemaCatalogs, Text("prefix"));
    Added(SchemaCatalogs, Flag("as_module")); Added(SchemaCatalogs, Flag("read_only"));
    Added(SchemaFields, Flag("is_pk"));
    assert Met(SCRIPT_12[5]) by { NoNeeds(SCRIPT_12[5]); }
  }

  lemma NoNeeds(s: Stmt)
    requires s.CreateTable?
    ensures Met(s)
  {
    hide HasColumn;
  }

  lemma FixedStructural(t: TableName, s: Stmt, tb: Table)
    requires Structural(s) && Met(s)
    requires DefOf(t, DEFS_13).Some? && tb.columns == DefOf(t, DEFS_13).value.columns
    ensures Fixed(t, s, Some(tb))
  {
    hide DefOf, DEFS_13, Names;
    if s.table == t && s.AddColumn? {
      assert s.column.name in Needs(s);
      assert ActOn(s, tb) == Some(tb);
    } else if s.table == t && s.CreateIndex? {
      assert forall c | c in s.on :: c in Needs(s);
      assert ActOn(s, tb) == Some(tb);
    }
  }

  lemma SettingsInsert()
    ensures ActOn(SCHEMA_VERSION, Blank(SETTINGS_DEF)) == Some(ResetSettings())
  {
    hide DEFS_13, DefOf;
    var values := SCHEMA_VERSION.values;
    var t := Blank(SETTINGS_DEF);
    NameAt(t.columns, 0); NameAt(t.columns, 1);
    assert values.Keys == {"key", "value"};
    assert t.columns[1..] == [Col("value")] && t.columns[1..][1..] == [];
    assert Defaults(t.columns[1..]) == Defaults([])["value" := Null];
    assert Defaults(t.columns) + values == values;
    assert t.key[1..] == [];
    assert KeyOf(t.key, values) == [Str("schema_version")];
  }

  function ResetSettings(): Table {
    Blank(SETTINGS_DEF).(rows :=
      map[[Str("schema_version")] := map["key" := Str("schema_version"), "value" := Str("\"0\"")]])
  }

  lemma OnVersionRow(t: TableName)
    requires DefOf(t, DEFS_13).Some?
    ensures On(t, [SCHEMA_VERSION], Some(Blank(DefOf(t, DEFS_13).value))) == Some(Some(ResetTable(t)))
    ensures Fixed(t, SCHEMA_VERSION, Some(ResetTable(t)))
  {
    hide DEFS_13, DefOf, Act, SETTINGS_DEF;
    var ss := [SCHEMA_VERSION];
    assert ss[1..] == [];
    if t == SchemaSettings {
      DefinedTables();
      SettingsInsert();
      InsertActs(SCHEMA_VERSION, Blank(SETTINGS_DEF), ResetSettings());
      RepeatsAtOnce(t, SCHEMA_VERSION, Some(Blank(SETTINGS_DEF)));
    }
  }

  lemma InsertActs(s: Stmt, t: Table, t': Table)
    requires s.Insert? && ActOn(s, t) == Some(t')
    ensures Act(s, Some(t)) == Some(Some(t'))
  {
  }

  lemma OnIndexes(t: TableName)
    requires DefOf(t, DEFS_13).Some?
    ensures On(t, SCRIPT_10, Some(Blank(DefOf(t, DEFS_13).value))) == Some(Some(Blank(DefOf(t, DEFS_13).value)))
  {
    var tb := Blank(DefOf(t, DEFS_13).value);
    Shapes();
    Met10();
    hide SCRIPT_10, DEFS_13, DefOf, Fixed, Structural, Met;
    forall s | s in SCRIPT_10 ensures Fixed(t, s, Some(tb)) { FixedStructural(t, s, tb); }
    FixedList(t, SCRIPT_10, Some(tb));
  }

  ghost predicate TouchesReset(s: Stmt) { IsReset(s.table) }

  lemma IndexTables()
    ensures forall s | s in SCRIPT_10 :: TouchesReset(s)
  {
    IndexedReset();
    hide IsReset, TouchesReset;
    Touches(SchemaTypes, ["catalog"]); Touches(SchemaTypes, ["hugr_type"]); Touches(SchemaTypes, ["kind"]);
    Touches(SchemaFields, ["type_name"]); Touches(SchemaFields, ["catalog"]); Touches(SchemaFields, ["hugr_type"]);
    Touches(SchemaFields, ["dependency_catalog"]);
    Touches(SchemaArguments, ["type_name"]); Touches(SchemaArguments, ["type_name", "field_name"]);
    Touches(SchemaEnumValues, ["type_name"]); Touches(SchemaModuleTypeCatalogs, ["catalog_name"]);
    Touches(SchemaDataObjectQueries, ["object_name"]); Touches(SchemaCatalogDependencies, ["depends_on"]);
  }

  lemma Touches(t: TableName, on: seq<string>)
    requires IsReset(t)
    ensures TouchesReset(CreateIndex(t, on))
  {
  }

  lemma IndexedReset()
    ensures IsReset(SchemaTypes) && IsReset(SchemaFields) && IsReset(SchemaArguments) && IsReset(SchemaEnumValues)
    ensures IsReset(SchemaModuleTypeCatalogs) && IsReset(SchemaDataObjectQueries) && IsReset(SchemaCatalogDependencies)
  {
  }

  lemma NotIndexed(t: TableName, slot: Option<Table>)
    requires !IsReset(t)
    ensures On(t, SCRIPT_10 + [SCHEMA_VERSION], slot) == Some(slot)
  {
    IndexTables();
    assert IsReset(SchemaSettings);
    hide SCRIPT_10, IsReset;
    FixedList(t, SCRIPT_10 + [SCHEMA_VERSION], slot);
  }

  /** 0.0.13 succeeds on every database. It leaves each of the twelve tables in one fixed state,
      whatever it was, and every other table alone. */
  lemma Resets(t: TableName, slot: Option<Table>)
    ensures IsReset(t) <==> DefOf(t, DEFS_13).Some?
    ensures On(t, SCRIPT_13, slot) == Some(if IsReset(t) then Some(ResetTable(t)) else slot)
  {
    ResetDefs();
    hide DROPPED, DEFS_13, SCRIPT_10, SCHEMA_VERSION, DefOf, DistinctNames, ResetTable;
    var creates := Creates(DEFS_13, false);
    var slot1 := if t in DROPPED then None else slot;
    OnDrops(t, DROPPED, slot);
    OnCreates(t, DEFS_13, slot1);
    OnConcat(t, Drops(DROPPED), creates + (SCRIPT_10 + [SCHEMA_VERSION]), slot);
    OnConcat(t, creates, SCRIPT_10 + [SCHEMA_VERSION], slot1);
    if IsReset(t) {
      var tb := Blank(DefOf(t, DEFS_13).value);
      OnConcat(t, SCRIPT_10, [SCHEMA_VERSION], Some(tb));
      OnIndexes(t);
      OnVersionRow(t);
    } else {
      NotIndexed(t, slot);
    }
  }

  lemma FixedBackfill(t: TableName)
    requires DefOf(t, DEFS_13).Some?
    ensures Fixed(t, BACKFILL_FIELDS, Some(ResetTable(t))) && Fixed(t, BACKFILL_ARGUMENTS, Some(ResetTable(t)))
  {
    DefinedTables();
    OneAssignment("field_type_name", StripOf("field_type"), Unset("field_type_name"));
    OneAssignment("arg_type_name", StripOf("arg_type"), Unset("arg_type_name"));
    FieldsColumns();
    ArgumentsColumns();
    hide DEFS_13, DefOf, Names, Mentions, SetCols;
    if t == SchemaFields {
      FixedUpdate(BACKFILL_FIELDS, ResetTable(t));
    } else if t == SchemaArguments {
      FixedUpdate(BACKFILL_ARGUMENTS, ResetTable(t));
    }
  }

  /** Everything before the reset has nothing to do on the tables it leaves. */
  lemma FixedBefore(t: TableName, s: Stmt)
    requires IsReset(t) && s in BEFORE && DefOf(t, DEFS_13).Some?
    ensures Fixed(t, s, Some(ResetTable(t)))
  {
    Shapes();
    Met10();
    MetAdded();
    FixedBackfill(t);
    OnVersionRow(t);
    CreatesFacts(DEFS_9, true);
    hide DEFS_13, DefOf, Fixed, Met, Structural;
    hide SCRIPT_9, SCRIPT_10, SCRIPT_11, SCRIPT_12, BACKFILL_FIELDS, BACKFILL_ARGUMENTS, SCHEMA_VERSION;
    if s == BACKFILL_FIELDS || s == BACKFILL_ARGUMENTS || s == SCHEMA_VERSION {
    } else {
      StructuralIn(s);
      FixedStructural(t, s, ResetTable(t));
    }
  }

  lemma StructuralIn(s: Stmt)
    requires s in BEFORE && s != BACKFILL_FIELDS && s != BACKFILL_ARGUMENTS && s != SCHEMA_VERSION
    ensures Structural(s) && Met(s)
  {
    Shapes();
    Met10();
    MetAdded();
    CreatesFacts(DEFS_9, true);
    if s in SCRIPT_9 { NoNeeds(s); }
    hide Met, Structural;
    hide SCRIPT_9, SCRIPT_10, SCRIPT_11, SCRIPT_12, BACKFILL_FIELDS, BACKFILL_ARGUMENTS, SCHEMA_VERSION;
  }

  // ---- Blocks of scripts ----

  const SCRIPTS: seq<seq<Stmt>> := [
    SCRIPT_9, SCRIPT_10, SCRIPT_11, SCRIPT_12, SCRIPT_13, SCRIPT_14, SCRIPT_15, SCRIPT_16, SCRIPT_17, SCRIPT_18]

  const RESET := 4

  function Flatten(sss: seq<seq<Stmt>>): seq<Stmt> {
    if sss == [] then [] else sss[0] + Flatten(sss[1..])
  }

  lemma {:induction false} FlattenConcat(xs: seq<seq<Stmt>>, ys: seq<seq<Stmt>>)
    ensures Flatten(xs + ys) == Flatten(xs) + Flatten(ys)
  {
    if xs == [] {
      assert xs + ys == ys;
    } else {
      assert (xs + ys)[1..] == xs[1..] + ys;
      FlattenConcat(xs[1..], ys);
    }
  }

  lemma Flatten4(a: seq<Stmt>, b: seq<Stmt>, c: seq<Stmt>, d: seq<Stmt>)
    ensures Flatten([a, b, c, d]) == a + (b + (c + d))
  {
    assert [a, b, c, d][1..] == [b, c, d] && [b, c, d][1..] == [c, d] && [c, d][1..] == [d] && [d][1..] == [];
    assert Flatten([c, d]) == c + Flatten([d]);
    assert Flatten([d]) == d;
  }

  lemma FlattenSides()
    ensures |SCRIPTS| == 10
    ensures Flatten(SCRIPTS[..RESET]) == BEFORE && Flatten(SCRIPTS[RESET + 1..]) == AFTER
    ensures SCRIPTS[RESET] == SCRIPT_13
  {
    hide SCRIPT_9, SCRIPT_10, SCRIPT_11, SCRIPT_12, SCRIPT_13, SCRIPT_14, SCRIPT_15, SCRIPT_16, SCRIPT_17;
    hide SCRIPT_18, Flatten;
    assert SCRIPTS[..RESET] == [SCRIPT_9, SCRIPT_10, SCRIPT_11, SCRIPT_12];
    Flatten4(SCRIPT_9, SCRIPT_10, SCRIPT_11, SCRIPT_12);
    assert SCRIPTS[RESET + 1..] == [SCRIPT_14] + [SCRIPT_15, SCRIPT_16, SCRIPT_17, SCRIPT_18];
    FlattenConcat([SCRIPT_14], [SCRIPT_15, SCRIPT_16, SCRIPT_17, SCRIPT_18]);
    Flatten1(SCRIPT_14);
    Flatten4(SCRIPT_15, SCRIPT_16, SCRIPT_17, SCRIPT_18);
  }

  lemma Flatten1(a: seq<Stmt>)
    ensures Flatten([a]) == a
  {
    assert [a][1..] == [];
  }

  lemma KeptPart(xs: seq<Stmt>, ys: seq<Stmt>, zs: seq<Stmt>)
    requires PairwiseKept(xs + (ys + zs)) && AllRepeatable(xs + (ys + zs))
    ensures PairwiseKept(ys) && AllRepeatable(ys)
  {
    hide Keeps, Repeatable;
    KeptConcat(xs, ys + zs);
    KeptConcat(ys, zs);
  }

  lemma WholeKept()
    ensures PairwiseKept(BEFORE + AFTER) && AllRepeatable(BEFORE + AFTER)
  {
    AllKept();
    BeforeRepeatable();
    AfterRepeatable();
    hide PairwiseKept, AllRepeatable, BEFORE, AFTER;
    BothRepeatable(BEFORE, AFTER);
  }

  ghost predicate Kept(ss: seq<Stmt>) { PairwiseKept(ss) && AllRepeatable(ss) }

  lemma KeptBefore(i: nat, j: nat)
    requires i <= j <= RESET
    ensures |SCRIPTS| == 10 && Kept(Flatten(SCRIPTS[i..j]))
  {
    hide SCRIPT_9, SCRIPT_10, SCRIPT_11, SCRIPT_12, SCRIPT_13, SCRIPT_14, SCRIPT_15, SCRIPT_16, SCRIPT_17, SCRIPT_18;
    WholeKept();
    FlattenSides();
    hide PairwiseKept, AllRepeatable, BEFORE, AFTER, SCRIPTS, Flatten;
    var x, y, z := SCRIPTS[..i], SCRIPTS[i..j], SCRIPTS[j..RESET];
    assert SCRIPTS[..RESET] == x + (y + z);
    FlattenConcat(x, y + z);
    FlattenConcat(y, z);
    Regroup(Flatten(x), Flatten(y), Flatten(z), AFTER);
    KeptPart(Flatten(x), Flatten(y), Flatten(z) + AFTER);
  }

  lemma Regroup(x: seq<Stmt>, y: seq<Stmt>, z: seq<Stmt>, w: seq<Stmt>)
    ensures (x + (y + z)) + w == x + (y + (z + w))
  {
  }

  lemma Regroup2(w: seq<Stmt>, x: seq<Stmt>, y: seq<Stmt>, z: seq<Stmt>)
    ensures w + (x + (y + z)) == (w + x) + (y + z)
  {
  }

  lemma Regroup3(x: seq<Stmt>, a: seq<Stmt>, b: seq<Stmt>, z: seq<Stmt>)
    ensures (x + a) + (b + z) == x + ((a + b) + z)
  {
  }

  lemma KeptAfter(i: nat, j: nat)
    requires RESET < i <= j <= |SCRIPTS|
    ensures Kept(Flatten(SCRIPTS[i..j]))
  {
    hide SCRIPT_9, SCRIPT_10, SCRIPT_11, SCRIPT_12, SCRIPT_13, SCRIPT_14, SCRIPT_15, SCRIPT_16, SCRIPT_17, SCRIPT_18;
    WholeKept();
    FlattenSides();
    hide PairwiseKept, AllRepeatable, BEFORE, AFTER, SCRIPTS, Flatten;
    var x, y, z := SCRIPTS[RESET + 1..i], SCRIPTS[i..j], SCRIPTS[j..];
    assert SCRIPTS[RESET + 1..] == x + (y + z);
    FlattenConcat(x, y + z);
    FlattenConcat(y, z);
    Regroup2(BEFORE, Flatten(x), Flatten(y), Flatten(z));
    KeptPart(BEFORE + Flatten(x), Flatten(y), Flatten(z));
  }

  lemma KeptAround(i: nat, j: nat)
    requires i <= RESET < j <= |SCRIPTS|
    ensures Kept(Flatten(SCRIPTS[i..RESET]) + Flatten(SCRIPTS[RESET + 1..j]))
  {
    hide SCRIPT_9, SCRIPT_10, SCRIPT_11, SCRIPT_12, SCRIPT_13, SCRIPT_14, SCRIPT_15, SCRIPT_16, SCRIPT_17, SCRIPT_18;
    WholeKept();
    FlattenSides();
    hide PairwiseKept, AllRepeatable, BEFORE, AFTER, SCRIPTS, Flatten;
    var x, a, b, z := SCRIPTS[..i], SCRIPTS[i..RESET], SCRIPTS[RESET + 1..j], SCRIPTS[j..];
    assert SCRIPTS[..RESET] == x + a && SCRIPTS[RESET + 1..] == b + z;
    FlattenConcat(x, a);
    FlattenConcat(b, z);
    Regroup3(Flatten(x), Flatten(a), Flatten(b), Flatten(z));
    KeptPart(Flatten(x), Flatten(a) + Flatten(b), Flatten(z));
  }

  lemma BothRepeatable(xs: seq<Stmt>, ys: seq<Stmt>)
    requires AllRepeatable(xs) && AllRepeatable(ys)
    ensures AllRepeatable(xs + ys)
  {
    hide Repeatable;
  }

  lemma InFlatten(i: nat, s: Stmt)
    requires i <= RESET && s in Flatten(SCRIPTS[i..RESET])
    ensures s in BEFORE
  {
    hide SCRIPT_9, SCRIPT_10, SCRIPT_11, SCRIPT_12, SCRIPT_13, SCRIPT_14, SCRIPT_15, SCRIPT_16, SCRIPT_17, SCRIPT_18;
    FlattenSides();
    hide BEFORE, SCRIPTS, AFTER, Flatten;
    assert SCRIPTS[..RESET] == SCRIPTS[..i] + SCRIPTS[i..RESET];
    FlattenConcat(SCRIPTS[..i], SCRIPTS[i..RESET]);
  }

  /** A block that holds the reset, split around it. */
  lemma AroundReset(i: nat, j: nat)
    requires i <= RESET < j <= |SCRIPTS|
    ensures Flatten(SCRIPTS[i..j]) ==
              Flatten(SCRIPTS[i..RESET]) + (SCRIPT_13 + Flatten(SCRIPTS[RESET + 1..j]))
  {
    FlattenSides();
    hide SCRIPTS, SCRIPT_13, BEFORE, AFTER;
    var a, b := SCRIPTS[i..RESET], SCRIPTS[RESET + 1..j];
    assert SCRIPTS[i..j] == a + ([SCRIPT_13] + b);
    FlattenConcat(a, [SCRIPT_13] + b);
    FlattenConcat([SCRIPT_13], b);
    assert [SCRIPT_13][1..] == [];
    assert Flatten([SCRIPT_13]) == SCRIPT_13 + Flatten([]);
  }

  /** A block that holds the reset, seen from one table: the twelve tables come out independent of
      what they were, the others as if there were no reset. */
  lemma OnAroundReset(t: TableName, i: nat, j: nat, slot: Option<Table>)
    requires i <= RESET < j <= |SCRIPTS| && On(t, Flatten(SCRIPTS[i..j]), slot).Some?
    ensures IsReset(t) <==> DefOf(t, DEFS_13).Some?
    ensures IsReset(t) ==>
      On(t, Flatten(SCRIPTS[i..j]), slot) == On(t, Flatten(SCRIPTS[RESET + 1..j]), Some(ResetTable(t)))
    ensures !IsReset(t) ==>
      On(t, Flatten(SCRIPTS[i..j]), slot) == On(t, Flatten(SCRIPTS[i..RESET]) + Flatten(SCRIPTS[RESET + 1..j]), slot)
  {
    hide SCRIPTS, SCRIPT_13, IsReset, DEFS_13, DefOf, ResetTable;
    var a, b := Flatten(SCRIPTS[i..RESET]), Flatten(SCRIPTS[RESET + 1..j]);
    AroundReset(i, j);
    OnConcat(t, a, SCRIPT_13 + b, slot);
    var m := On(t, a, slot).value;
    OnConcat(t, SCRIPT_13, b, m);
    OnConcat(t, a, b, slot);
    Resets(t, m);
  }

  lemma BlockRepeatsAt(t: TableName, i: nat, j: nat, slot: Option<Table>)
    requires i <= j <= |SCRIPTS| && On(t, Flatten(SCRIPTS[i..j]), slot).Some?
    ensures On(t, Flatten(SCRIPTS[i..j]), On(t, Flatten(SCRIPTS[i..j]), slot).value) ==
        On(t, Flatten(SCRIPTS[i..j]), slot)
  {
    hide SCRIPTS, SCRIPT_13, BEFORE, AFTER, IsReset, DEFS_13, DefOf, ResetTable, PairwiseKept, AllRepeatable, Fixed;
    var ss := Flatten(SCRIPTS[i..j]);
    if j <= RESET || i > RESET {
      if j <= RESET { KeptBefore(i, j); } else { KeptAfter(i, j); }
      KeptRepeats(t, ss, slot);
    } else {
      var a, b := Flatten(SCRIPTS[i..RESET]), Flatten(SCRIPTS[RESET + 1..j]);
      var x := On(t, ss, slot).value;
      KeptAround(i, j);
      OnAroundReset(t, i, j, slot);
      AroundReset(i, j);
      OnConcat(t, a, SCRIPT_13 + b, x);
      if IsReset(t) {
        KeptConcat(a, b);
        forall s | s in a ensures Fixed(t, s, x) {
          InFlatten(i, s);
          FixedBefore(t, s);
          StaysFixed(t, s, b, Some(ResetTable(t)));
        }
        FixedList(t, a, x);
        OnConcat(t, SCRIPT_13, b, x);
        Resets(t, x);
      } else {
        KeptRepeats(t, a + b, slot);
        OnConcat(t, a, b, x);
        var m := On(t, a, x).value;
        OnConcat(t, SCRIPT_13, b, m);
        Resets(t, m);
      }
    }
  }

  /** The shipped scripts i to j, run twice from any database on which they succeed, leave what they
      leave the first time. */
  lemma BlockRepeats(i: nat, j: nat, d: Db)
    requires i <= j <= |SCRIPTS| && ExecAll(Flatten(SCRIPTS[i..j]), d).Some?
    ensures ExecAll(Flatten(SCRIPTS[i..j]), ExecAll(Flatten(SCRIPTS[i..j]), d).value) ==
        ExecAll(Flatten(SCRIPTS[i..j]), d)
  {
    hide SCRIPTS;
    var ss := Flatten(SCRIPTS[i..j]);
    forall t, slot | On(t, ss, slot).Some? ensures On(t, ss, On(t, ss, slot).value) == On(t, ss, slot) {
      BlockRepeatsAt(t, i, j, slot);
    }
    RepeatsTablewise(ss, d);
  }

  /** A block that holds 0.0.13 leaves the twelve tables independent of what they were: from any two
      databases on which it succeeds, it leaves them alike. */
  lemma ResetForgets(i: nat, j: nat, d: Db, d': Db, t: TableName)
    requires i <= RESET < j <= |SCRIPTS| && IsReset(t)
    requires ExecAll(Flatten(SCRIPTS[i..j]), d).Some? && ExecAll(Flatten(SCRIPTS[i..j]), d').Some?
    ensures Get(ExecAll(Flatten(SCRIPTS[i..j]), d).value, t) == Get(ExecAll(Flatten(SCRIPTS[i..j]), d').value, t)
  {
    hide SCRIPTS, IsReset, DEFS_13, DefOf, ResetTable;
    var ss := Flatten(SCRIPTS[i..j]);
    TablewiseAt(ss, d, t);
    TablewiseAt(ss, d', t);
    OnAroundReset(t, i, j, Get(d, t));
    OnAroundReset(t, i, j, Get(d', t));
  }
}
