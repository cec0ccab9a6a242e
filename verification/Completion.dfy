/** When the shipped scripts succeed. */
module Completion {
  import opened Strings
  import opened Sql
  import opened Replay
  import opened Scripts
  import opened Checker

  // ---- The scripts after the reset pass the check against the tables it leaves ----

  lemma FitsUpdate(s: Stmt, d: Def)
    requires s.Update? && DefOf(s.table, DEFS_13) == Some(d)
    requires forall c | c in Mentions(s.sets, s.cond) :: HasColumn(s.table, c)
    requires forall c | c in d.key :: c !in SetCols(s.sets)
    ensures Fits(s, ShapesOf(DEFS_13))
  {
    ShapesAre(DEFS_13, s.table);
    hide DEFS_13, DefOf, Names, Mentions, SetCols;
  }

  lemma FitsNamed(s: Stmt, d: Def)
    requires s.DeleteKey? || s.AddColumn?
    requires DefOf(s.table, DEFS_13) == Some(d)
    ensures Fits(s, ShapesOf(DEFS_13))
  {
    ShapesAre(DEFS_13, s.table);
    hide DEFS_13, DefOf, Names;
  }

  lemma ModulesDefined()
    ensures DefOf(SchemaModules, DEFS_13) == Some(MODULES_DEF)
  {
    DefNames();
    NamesDistinct();
    assert DEFS_13[7] == MODULES_DEF && MODULES_DEF.name == SchemaModules;
    hide DEFS_13, DefOf, MODULES_DEF, DistinctNames;
    DefinedAt(DEFS_13, 7);
  }

  lemma ResetNames()
    ensures DefOf(SchemaModules, DEFS_13) == Some(MODULES_DEF)
    ensures HasColumn(SchemaCatalogs, "version") && HasColumn(SchemaFields, "name") && HasColumn(SchemaModules, "name")
    ensures HasColumn(SchemaModuleTypeCatalogs, "module_name") && HasColumn(SchemaModuleTypeCatalogs, "type_name")
    ensures HasColumn(SchemaModuleTypeCatalogs, "catalog_name")
  {
    hide HasColumn, DEFS_13, DefOf;
    ModulesDefined();
    DefinedTables();
    HasAt(SchemaCatalogs, CATALOGS_DEF_13, 1); HasAt(SchemaFields, FIELDS_DEF_13, 1);
    HasAt(SchemaModules, MODULES_DEF, 0);
    HasAt(SchemaModuleTypeCatalogs, MODULE_TYPE_CATALOGS_DEF, 0);
    HasAt(SchemaModuleTypeCatalogs, MODULE_TYPE_CATALOGS_DEF, 1);
    HasAt(SchemaModuleTypeCatalogs, MODULE_TYPE_CATALOGS_DEF, 2);
  }

  lemma Checks14()
    ensures Checks(SCRIPT_14, ShapesOf(DEFS_13)) && AfterAll(SCRIPT_14, ShapesOf(DEFS_13)) == ShapesOf(DEFS_13)
  {
    hide DEFS_13, DefOf, HasColumn, Fits, ShapesOf;
    ResetNames();
    DefinedTables();
    OneAssignment("version", Lit(Str("")), All);
    FitsUpdate(SCRIPT_14[0], CATALOGS_DEF_13);
    FitsNamed(SCRIPT_14[1], SETTINGS_DEF);
    ChecksEach(SCRIPT_14, ShapesOf(DEFS_13));
  }

  lemma FixMentions()
    ensures Mentions(SCRIPT_15[0].sets, SCRIPT_15[0].cond) == {"dependency_catalog", "hugr_type", "catalog"}
    ensures Mentions(SCRIPT_15[1].sets, SCRIPT_15[1].cond) == {"dependency_catalog", "catalog", "type_name", "name"}
  {
    FixColumns();
  }

  lemma Checks15()
    ensures Checks(SCRIPT_15, ShapesOf(DEFS_13)) && AfterAll(SCRIPT_15, ShapesOf(DEFS_13)) == ShapesOf(DEFS_13)
  {
    hide DEFS_13, DefOf, HasColumn, Fits, ShapesOf, Mentions;
    ResetNames();
    DefinedTables();
    FieldsColumns();
    FixColumns();
    FixMentions();
    FitsUpdate(SCRIPT_15[0], FIELDS_DEF_13);
    FitsUpdate(SCRIPT_15[1], FIELDS_DEF_13);
    ChecksEach(SCRIPT_15, ShapesOf(DEFS_13));
  }

  lemma Checks16()
    ensures Checks(SCRIPT_16, ShapesOf(DEFS_13)) && AfterAll(SCRIPT_16, ShapesOf(DEFS_13)) == ShapesOf(DEFS_13)
  {
    ShapesAre(DEFS_13, SchemaModuleTypeCatalogs);
    hide DEFS_13, DefOf, ShapesOf, Names;
    ResetNames();
    DefinedTables();
    assert SCRIPT_16[0].values.Keys == {"module_name", "type_name", "catalog_name"};
    assert Fits(SCRIPT_16[0], ShapesOf(DEFS_13));
    ChecksEach(SCRIPT_16, ShapesOf(DEFS_13));
  }

  /** A column is added and then assigned. */
  lemma ChecksAdded(t: TableName, c: Column, e: Expr, cond: Cond, shapes: Shapes)
    requires t in shapes && c.name !in shapes[t].key
    requires ExprReads(e) == {} && CondReads(cond) <= shapes[t].cols
    ensures Checks([AddColumn(t, c), Update(t, [Assign(c.name, e)], cond)], shapes)
  {
    var ss := [AddColumn(t, c), Update(t, [Assign(c.name, e)], cond)];
    OneAssignment(c.name, e, cond);
    assert ss[1..] == [ss[1]] && ss[1..][1..] == [];
    assert Fits(ss[1], After(ss[0], shapes));
  }

  lemma Checks17()
    ensures Checks(SCRIPT_17, ShapesOf(DEFS_13))
  {
    ShapesAre(DEFS_13, SchemaModules);
    hide DEFS_13, DefOf, ShapesOf, Names, Checks;
    ResetNames();
    ChecksAdded(SchemaModules, Col("subscription_root"), Lit(Str("Subscription")), Eq("name", Str("")),
                ShapesOf(DEFS_13));
    var sets := [Assign("subscription_root", Lit(Str("Subscription")))];
    assert SCRIPT_17 == [AddColumn(SchemaModules, Col("subscription_root")),
                         Update(SchemaModules, sets, Eq("name", Str("")))];
  }

  lemma ChecksLater()
    ensures Checks(SCRIPT_14 + (SCRIPT_15 + (SCRIPT_16 + SCRIPT_17)), ShapesOf(DEFS_13))
  {
    hide DEFS_13, ShapesOf, Checks, AfterAll, SCRIPT_14, SCRIPT_15, SCRIPT_16, SCRIPT_17;
    Checks14();
    Checks15();
    Checks16();
    Checks17();
    ChecksConcat(SCRIPT_14, SCRIPT_15 + (SCRIPT_16 + SCRIPT_17), ShapesOf(DEFS_13));
    ChecksConcat(SCRIPT_15, SCRIPT_16 + SCRIPT_17, ShapesOf(DEFS_13));
    ChecksConcat(SCRIPT_16, SCRIPT_17, ShapesOf(DEFS_13));
  }

  // ---- The reset ----

  /** 0.0.13 succeeds on every database and leaves the twelve tables in their shapes. */
  lemma ResetRuns(d: Db)
    ensures ExecAll(SCRIPT_13, d).Some?
    ensures Conforms(ExecAll(SCRIPT_13, d).value, ShapesOf(DEFS_13))
  {
    hide SCRIPT_13, DEFS_13, DefOf, IsReset, ResetTable, Names;
    forall t ensures On(t, SCRIPT_13, Get(d, t)).Some? { Resets(t, Get(d, t)); }
    TablewiseSucceeds(SCRIPT_13, d);
    var d' := ExecAll(SCRIPT_13, d).value;
    forall t | t in ShapesOf(DEFS_13) ensures Has(d', t, ShapesOf(DEFS_13)[t]) {
      ShapesAre(DEFS_13, t);
      Resets(t, Get(d, t));
      TablewiseAt(SCRIPT_13, d, t);
      ResetShape(t);
    }
  }

  lemma ResetShape(t: TableName)
    requires DefOf(t, DEFS_13).Some?
    ensures Names(ResetTable(t).columns) == ShapeOf(DefOf(t, DEFS_13).value).cols
    ensures ResetTable(t).key == ShapeOf(DefOf(t, DEFS_13).value).key
  {
    hide DEFS_13, DefOf, Names;
  }

  // ---- The table roles ----

  /** 0.0.18 can give the roles their new column. */
  ghost predicate RolesReady(d: Db) {
    Roles in d && "name" in Names(d[Roles].columns) && "can_impersonate" !in d[Roles].key
  }

  lemma {:induction false} Untouched(t: TableName, ss: seq<Stmt>, slot: Option<Table>)
    requires forall s | s in ss :: s.table != t
    ensures On(t, ss, slot) == Some(slot)
  {
    if ss != [] {
      assert ss[0] in ss;
      Untouched(t, ss[1..], slot);
    }
  }

  lemma LastMentions()
    ensures SCRIPT_18[1..] == [SCRIPT_18[1]] && SCRIPT_18[1..][1..] == []
    ensures Mentions(SCRIPT_18[1].sets, SCRIPT_18[1].cond) == {"can_impersonate", "name"}
    ensures SetCols(SCRIPT_18[1].sets) == {"can_impersonate"}
  {
    OneAssignment("can_impersonate", Lit(Bool(true)), Eq("name", Str("admin")));
  }

  lemma LastRuns(d: Db)
    ensures ExecAll(SCRIPT_18, d).Some? <==> RolesReady(d)
  {
    LastMentions();
    hide Names, Mentions, SetCols;
    var ss := SCRIPT_18;
    if Roles in d {
      var t := d[Roles];
      AppendNames(t.columns, ss[0].column);
      var t1 := ActOn(ss[0], t).value;
      Grows(ss[0], t, t1);
      var d1 := Exec(ss[0], d).value;
      assert Names(t1.columns) == Names(t.columns) + {"can_impersonate"};
      assert ExecAll(ss[1..], d1).Some? <==> Exec(ss[1], d1).Some?;
    }
  }

  lemma Parts13(s: Stmt)
    requires s in SCRIPT_13
    ensures s in Drops(DROPPED) || s in Creates(DEFS_13, false) || s in SCRIPT_10 || s == SCHEMA_VERSION
  {
    hide DROPPED, DEFS_13, SCRIPT_10, SCHEMA_VERSION, Drops, Creates;
  }

  lemma DropsReset(s: Stmt)
    requires s in Drops(DROPPED)
    ensures IsReset(s.table)
  {
    hide DROPPED;
    DropsNames(DROPPED);
  }

  lemma CreatesReset(s: Stmt)
    requires s in Creates(DEFS_13, false)
    ensures IsReset(s.table)
  {
    NotDropped();
    hide DEFS_13, IsReset;
    CreatesNames(DEFS_13, false);
  }

  /** 0.0.13 touches the twelve tables only. */
  lemma ResetTouches(s: Stmt)
    requires s in SCRIPT_13
    ensures IsReset(s.table)
  {
    VersionRowTable();
    assert IsReset(SchemaSettings);
    hide DROPPED, DEFS_13, SCRIPT_10, SCRIPT_13, SCHEMA_VERSION, Drops, Creates, IsReset;
    Parts13(s);
    IndexTables();
    if s in Drops(DROPPED) {
      DropsReset(s);
    } else if s in Creates(DEFS_13, false) {
      CreatesReset(s);
    }
  }

  lemma {:induction false} DropsNames(names: seq<TableName>)
    ensures forall s | s in Drops(names) :: s.table in names
  {
    if names != [] { DropsNames(names[1..]); }
  }

  lemma {:induction false} CreatesNames(defs: seq<Def>, ifNotExists: bool)
    ensures forall s | s in Creates(defs, ifNotExists) :: exists i :: 0 <= i < |defs| && s.table == defs[i].name
  {
    if defs != [] {
      CreatesNames(defs[1..], ifNotExists);
      forall s | s in Creates(defs, ifNotExists) ensures exists i :: 0 <= i < |defs| && s.table == defs[i].name {
        if s in Creates(defs[1..], ifNotExists) {
          var i :| 0 <= i < |defs[1..]| && s.table == defs[1..][i].name;
          assert s.table == defs[i + 1].name;
        } else {
          assert s.table == defs[0].name;
        }
      }
    }
  }

  lemma CreatesOther()
    ensures forall s | s in SCRIPT_9 :: s.table != Roles
  {
    CreatesNames(DEFS_9, true);
    assert forall i | 0 <= i < |DEFS_9| :: DEFS_9[i].name != Roles;
  }

  lemma EarlyOther()
    ensures forall s | s in SCRIPT_11 :: s.table != Roles
    ensures forall s | s in SCRIPT_12 :: s.table != Roles
  {
    VersionRowTable();
    hide SCHEMA_VERSION;
  }

  lemma ResetOther()
    ensures forall s | s in SCRIPT_13 :: s.table != Roles
  {
    assert !IsReset(Roles);
    hide SCRIPT_13, IsReset;
    forall s | s in SCRIPT_13 ensures s.table != Roles { ResetTouches(s); }
  }

  ghost predicate Misses(ss: seq<Stmt>) { forall s | s in ss :: s.table != Roles }

  lemma MissesEach()
    ensures Misses(SCRIPT_9) && Misses(SCRIPT_10) && Misses(SCRIPT_11) && Misses(SCRIPT_12) && Misses(SCRIPT_13)
    ensures Misses(SCRIPT_14) && Misses(SCRIPT_15) && Misses(SCRIPT_16) && Misses(SCRIPT_17)
  {
    hide SCRIPT_9, SCRIPT_10, SCRIPT_11, SCRIPT_12, SCRIPT_13, SCRIPT_14, SCRIPT_15, SCRIPT_16, SCRIPT_17, SCRIPT_18;
    CreatesOther();
    EarlyOther();
    IndexTables();
    assert !IsReset(Roles);
    hide IsReset;
    TableOf();
    ResetOther();
  }

  /** Only 0.0.18 touches the roles. */
  lemma OnlyLastTouches(k: nat)
    requires k < 9
    ensures |SCRIPTS| == 10 && Misses(SCRIPTS[k])
  {
    hide SCRIPT_9, SCRIPT_10, SCRIPT_11, SCRIPT_12, SCRIPT_13, SCRIPT_14, SCRIPT_15, SCRIPT_16, SCRIPT_17;
    hide SCRIPT_18, Misses;
    MissesEach();
    if k < 4 {
      assert SCRIPTS[0] == SCRIPT_9 && SCRIPTS[1] == SCRIPT_10 && SCRIPTS[2] == SCRIPT_11 && SCRIPTS[3] == SCRIPT_12;
    } else {
      assert SCRIPTS[4] == SCRIPT_13 && SCRIPTS[5] == SCRIPT_14 && SCRIPTS[6] == SCRIPT_15 && SCRIPTS[7] == SCRIPT_16;
      assert SCRIPTS[8] == SCRIPT_17;
    }
  }

  lemma MissesBoth(xs: seq<Stmt>, ys: seq<Stmt>)
    requires Misses(xs) && Misses(ys)
    ensures Misses(xs + ys)
  {
  }

  lemma {:induction false} MissesAll(sss: seq<seq<Stmt>>)
    requires forall i | 0 <= i < |sss| :: Misses(sss[i])
    ensures Misses(Flatten(sss))
  {
    if sss == [] {
      assert Flatten(sss) == [];
    } else {
      MissesAll(sss[1..]);
      MissesBoth(sss[0], Flatten(sss[1..]));
    }
  }

  lemma BlockOther(i: nat, j: nat)
    requires i <= j <= 9
    ensures |SCRIPTS| == 10 && Misses(Flatten(SCRIPTS[i..j]))
  {
    hide *;
    OnlyLastTouches(0);
    var sss := SCRIPTS[i..j];
    forall k | 0 <= k < |sss| ensures Misses(sss[k]) { OnlyLastTouches(i + k); }
    MissesAll(sss);
  }

  lemma RolesKept(i: nat, j: nat, d: Db)
    requires i <= j <= 9 && |SCRIPTS| == 10 && ExecAll(Flatten(SCRIPTS[i..j]), d).Some?
    ensures Get(ExecAll(Flatten(SCRIPTS[i..j]), d).value, Roles) == Get(d, Roles)
    ensures RolesReady(ExecAll(Flatten(SCRIPTS[i..j]), d).value) <==> RolesReady(d)
  {
    BlockOther(i, j);
    hide SCRIPTS, Flatten, Names;
    Untouched(Roles, Flatten(SCRIPTS[i..j]), Get(d, Roles));
    TablewiseAt(Flatten(SCRIPTS[i..j]), d, Roles);
  }

  lemma LaterBlock()
    ensures |SCRIPTS| == 10 && SCRIPTS[9..10] == [SCRIPT_18] && SCRIPTS[RESET] == SCRIPT_13
    ensures Flatten(SCRIPTS[RESET + 1..9]) == SCRIPT_14 + (SCRIPT_15 + (SCRIPT_16 + SCRIPT_17))
  {
    hide SCRIPT_9, SCRIPT_10, SCRIPT_11, SCRIPT_12, SCRIPT_13, SCRIPT_14, SCRIPT_15, SCRIPT_16, SCRIPT_17;
    hide SCRIPT_18, Flatten;
    assert SCRIPTS[RESET + 1..9] == [SCRIPT_14, SCRIPT_15, SCRIPT_16, SCRIPT_17];
    Flatten4(SCRIPT_14, SCRIPT_15, SCRIPT_16, SCRIPT_17);
  }

  lemma Consecutive(i: nat, j: nat, k: nat, d: Db)
    requires i <= j <= k <= 10 && |SCRIPTS| == 10
    ensures ExecAll(Flatten(SCRIPTS[i..k]), d) ==
              match ExecAll(Flatten(SCRIPTS[i..j]), d)
              case None => None
              case Some(m) => ExecAll(Flatten(SCRIPTS[j..k]), m)
  {
    hide SCRIPTS;
    assert SCRIPTS[i..k] == SCRIPTS[i..j] + SCRIPTS[j..k];
    FlattenConcat(SCRIPTS[i..j], SCRIPTS[j..k]);
    ExecConcat(Flatten(SCRIPTS[i..j]), Flatten(SCRIPTS[j..k]), d);
  }

  /** After the reset, everything up to 0.0.17 succeeds. */
  lemma LaterRuns(n: nat, d: Db)
    requires RESET < n <= 9 && |SCRIPTS| == 10 && Conforms(d, ShapesOf(DEFS_13))
    ensures ExecAll(Flatten(SCRIPTS[RESET + 1..n]), d).Some?
  {
    LaterBlock();
    ChecksLater();
    hide SCRIPTS, DEFS_13, ShapesOf, Conforms, Checks;
    ChecksRuns(Flatten(SCRIPTS[RESET + 1..9]), ShapesOf(DEFS_13), d);
    Consecutive(RESET + 1, n, 9, d);
  }

  lemma OneScript(k: nat, d: Db)
    requires k < 10 && |SCRIPTS| == 10
    ensures ExecAll(Flatten(SCRIPTS[k..k + 1]), d) == ExecAll(SCRIPTS[k], d)
  {
    hide SCRIPTS;
    assert SCRIPTS[k..k + 1] == [SCRIPTS[k]];
    Flatten1(SCRIPTS[k]);
  }

  /** A block of shipped scripts that holds the reset succeeds exactly when its part before the reset
      does and, if it goes up to 0.0.18, the roles are ready. */
  lemma SucceedsExactly(i: nat, n: nat, d: Db)
    requires i <= RESET < n <= 10
    ensures |SCRIPTS| == 10
    ensures ExecAll(Flatten(SCRIPTS[i..n]), d).Some? <==>
      ExecAll(Flatten(SCRIPTS[i..RESET]), d).Some? && (n == 10 ==> RolesReady(d))
  {
    LaterBlock();
    hide SCRIPTS, DEFS_13, ShapesOf, Conforms, Flatten, ExecAll, SCRIPT_13, SCRIPT_18, RolesReady;
    Consecutive(i, RESET, n, d);
    if ExecAll(Flatten(SCRIPTS[i..RESET]), d).Some? {
      var d1 := ExecAll(Flatten(SCRIPTS[i..RESET]), d).value;
      Consecutive(RESET, RESET + 1, n, d1);
      OneScript(RESET, d1);
      ResetRuns(d1);
      var d2 := ExecAll(SCRIPT_13, d1).value;
      var m := if n == 10 then 9 else n;
      LaterRuns(m, d2);
      Consecutive(RESET + 1, m, n, d2);
      if n == 10 {
        var d3 := ExecAll(Flatten(SCRIPTS[RESET + 1..9]), d2).value;
        OneScript(9, d3);
        assert SCRIPTS[9] == SCRIPTS[9..10][0];
        LastRuns(d3);
        RolesKept(i, RESET, d);
        RolesKept(RESET, RESET + 1, d1);
        RolesKept(RESET + 1, 9, d2);
      }
    }
  }

  // ---- A fresh schema ----

  /** None of the twelve tables is there yet. */
  ghost predicate Fresh(d: Db) { forall t | IsReset(t) :: t !in d }

  lemma {:induction false} CreatesConform(defs: seq<Def>, d: Db)
    requires DistinctNames(defs) && forall f | f in defs :: f.name !in d
    ensures ExecAll(Creates(defs, true), d).Some?
    ensures forall t | DefOf(t, defs).None? :: Get(ExecAll(Creates(defs, true), d).value, t) == Get(d, t)
    ensures Conforms(ExecAll(Creates(defs, true), d).value, ShapesOf(defs))
  {
    hide Names;
    if defs != [] {
      var f := defs[0];
      assert f in defs;
      var d1 := Exec(Creates(defs, true)[0], d).value;
      assert Creates(defs, true)[1..] == Creates(defs[1..], true);
      assert Get(d1, f.name) == Some(Blank(f));
      NotDefined(f.name, defs[1..]);
      CreatesConform(defs[1..], d1);
      var d' := ExecAll(Creates(defs, true), d).value;
      assert Get(d', f.name) == Some(Blank(f));
      forall t | t in ShapesOf(defs) ensures Has(d', t, ShapesOf(defs)[t]) {
        if t != f.name { assert Has(d', t, ShapesOf(defs[1..])[t]); }
      }
    }
  }

  lemma Names9()
    ensures DistinctNames(DEFS_9) && forall f | f in DEFS_9 :: IsReset(f.name)
  {
    DefNames9();
    hide DEFS_9;
  }

  lemma DefNames9()
    ensures |DEFS_9| == 12
    ensures DEFS_9[0].name == SchemaCatalogs && DEFS_9[1].name == SchemaCatalogDependencies
    ensures DEFS_9[2].name == SchemaTypes && DEFS_9[3].name == SchemaFields && DEFS_9[4].name == SchemaArguments
    ensures DEFS_9[5].name == SchemaEnumValues && DEFS_9[6].name == SchemaDirectives
    ensures DEFS_9[7].name == SchemaModules && DEFS_9[8].name == SchemaModuleTypeCatalogs
    ensures DEFS_9[9].name == SchemaDataObjects && DEFS_9[10].name == SchemaDataObjectQueries
    ensures DEFS_9[11].name == SchemaSettings
  {
  }

  /** Table t has column c when 0.0.9 has created it. */
  predicate Created(t: TableName, c: string) { t in ShapesOf(DEFS_9) && c in ShapesOf(DEFS_9)[t].cols }

  lemma CreatedAt(i: nat, j: nat)
    requires i < |DEFS_9| && j < |DEFS_9[i].columns|
    ensures Created(DEFS_9[i].name, DEFS_9[i].columns[j].name)
    ensures ShapesOf(DEFS_9)[DEFS_9[i].name].key == DEFS_9[i].key
  {
    Names9();
    hide DEFS_9;
    DefinedAt(DEFS_9, i);
    ShapesAre(DEFS_9, DEFS_9[i].name);
    NameAt(DEFS_9[i].columns, j);
  }

  lemma Defs9()
    ensures |DEFS_9| == 12
    ensures DEFS_9[0] == CATALOGS_DEF_9 && DEFS_9[1] == CATALOG_DEPENDENCIES_DEF && DEFS_9[2] == TYPES_DEF
    ensures DEFS_9[3] == FIELDS_DEF_9 && DEFS_9[4] == ARGUMENTS_DEF_9 && DEFS_9[5] == ENUM_VALUES_DEF
    ensures DEFS_9[8] == MODULE_TYPE_CATALOGS_DEF && DEFS_9[10] == DATA_OBJECT_QUERIES_DEF && DEFS_9[11] == SETTINGS_DEF
  {
  }

  lemma FitsIndex(t: TableName, on: seq<string>)
    requires t in ShapesOf(DEFS_9) && forall c | c in on :: Created(t, c)
    ensures Fits(CreateIndex(t, on), ShapesOf(DEFS_9))
  {
    hide ShapesOf;
  }

  lemma Checks10()
    ensures Checks(SCRIPT_10, ShapesOf(DEFS_9)) && AfterAll(SCRIPT_10, ShapesOf(DEFS_9)) == ShapesOf(DEFS_9)
  {
    Defs9();
    hide DEFS_9, Created, ShapesOf, Fits;
    CreatedAt(2, 6); CreatedAt(2, 4); CreatedAt(2, 1);
    CreatedAt(3, 0); CreatedAt(3, 6); CreatedAt(3, 5); CreatedAt(3, 7);
    CreatedAt(4, 0); CreatedAt(4, 1); CreatedAt(5, 0); CreatedAt(8, 2); CreatedAt(10, 1); CreatedAt(1, 1);
    InShapes();
    FitsIndex(SchemaTypes, ["catalog"]); FitsIndex(SchemaTypes, ["hugr_type"]); FitsIndex(SchemaTypes, ["kind"]);
    FitsIndex(SchemaFields, ["type_name"]); FitsIndex(SchemaFields, ["catalog"]);
    FitsIndex(SchemaFields, ["hugr_type"]);
    FitsIndex(SchemaFields, ["dependency_catalog"]);
    FitsIndex(SchemaArguments, ["type_name"]); FitsIndex(SchemaArguments, ["type_name", "field_name"]);
    FitsIndex(SchemaEnumValues, ["type_name"]); FitsIndex(SchemaModuleTypeCatalogs, ["catalog_name"]);
    FitsIndex(SchemaDataObjectQueries, ["object_name"]); FitsIndex(SchemaCatalogDependencies, ["depends_on"]);
    ChecksEach(SCRIPT_10, ShapesOf(DEFS_9));
  }

  lemma InShapes()
    ensures forall t, c | Created(t, c) :: t in ShapesOf(DEFS_9)
  {
    hide ShapesOf;
  }

  lemma ChecksCons(s: Stmt, ss: seq<Stmt>, shapes: Shapes)
    ensures Checks([s] + ss, shapes) <==> Fits(s, shapes) && Checks(ss, After(s, shapes))
    ensures AfterAll([s] + ss, shapes) == AfterAll(ss, After(s, shapes))
  {
    hide Fits, After;
    assert ([s] + ss)[1..] == ss;
  }

  /** The columns that 0.0.9 gives the tables that 0.0.11 and 0.0.12 change. */
  ghost predicate Created9(shapes: Shapes) {
    && SchemaFields in shapes && SchemaArguments in shapes && SchemaCatalogs in shapes && SchemaSettings in shapes
    && "field_type" in shapes[SchemaFields].cols && "arg_type" in shapes[SchemaArguments].cols
    && {"key", "value"} <= shapes[SchemaSettings].cols
    && shapes[SchemaFields].key == ["type_name", "name"]
    && shapes[SchemaArguments].key == ["type_name", "field_name", "name"]
    && shapes[SchemaSettings].key == ["key"]
  }

  lemma ShapesCreated()
    ensures Created9(ShapesOf(DEFS_9))
  {
    Defs9();
    hide DEFS_9, ShapesOf;
    CreatedAt(0, 0); CreatedAt(3, 2); CreatedAt(4, 3); CreatedAt(11, 0); CreatedAt(11, 1);
  }

  lemma CreatedGrows(s: Stmt, shapes: Shapes)
    requires Created9(shapes)
    ensures Created9(After(s, shapes))
  {
  }

  lemma Checks11(shapes: Shapes)
    requires Created9(shapes)
    ensures Checks(SCRIPT_11, shapes) && Created9(AfterAll(SCRIPT_11, shapes))
  {
    OneAssignment("field_type_name", StripOf("field_type"), Unset("field_type_name"));
    OneAssignment("arg_type_name", StripOf("arg_type"), Unset("arg_type_name"));
    hide Mentions, SetCols;
    var a, b, f, g := SCRIPT_11[0], SCRIPT_11[1], SCRIPT_11[2], SCRIPT_11[3];
    assert SCRIPT_11 == [a] + ([b] + ([f] + ([g] + [])));
    var s1 := After(a, shapes);
    var s2 := After(b, s1);
    assert "field_type_name" in s2[SchemaFields].cols && "arg_type_name" in s2[SchemaArguments].cols;
    assert Created9(s2);
    assert Fits(f, s2) && Fits(g, s2) && After(f, s2) == s2 && After(g, s2) == s2;
    hide Fits, After, Created9, SCRIPT_11, BACKFILL_FIELDS, BACKFILL_ARGUMENTS;
    ChecksCons(g, [], s2);
    ChecksCons(f, [g] + [], s2);
    ChecksCons(b, [f] + ([g] + []), s1);
    ChecksCons(a, [b] + ([f] + ([g] + [])), shapes);
  }

  /** The kinds of statement in 0.0.12. */
  predicate Adds(s: Stmt) {
    || s == SCHEMA_VERSION
    || (s.CreateTable? && s.ifNotExists)
    || (s.AddColumn? && s.table in {SchemaCatalogs, SchemaFields})
  }

  lemma {:induction false} ChecksAdding(ss: seq<Stmt>, shapes: Shapes)
    requires Created9(shapes)
    requires forall s | s in ss :: Adds(s)
    ensures Checks(ss, shapes)
    decreases |ss|
  {
    hide SCHEMA_VERSION;
    if ss != [] {
      assert ss[0] in ss;
      VersionFits(shapes);
      CreatedGrows(ss[0], shapes);
      ChecksAdding(ss[1..], After(ss[0], shapes));
    }
  }

  lemma VersionFits(shapes: Shapes)
    requires Created9(shapes)
    ensures Fits(SCHEMA_VERSION, shapes)
  {
    assert SCHEMA_VERSION.values.Keys == {"key", "value"};
  }

  lemma Adding12()
    ensures forall s | s in SCRIPT_12 :: Adds(s)
  {
    hide SCHEMA_VERSION;
  }

  /** On a database without the twelve tables, the scripts before the reset succeed. */
  lemma FreshRuns(d: Db)
    requires Fresh(d)
    ensures ExecAll(BEFORE, d).Some?
  {
    Names9();
    ShapesCreated();
    Adding12();
    hide DEFS_9, ShapesOf, SCRIPT_10, SCRIPT_11, SCRIPT_12, Created9, Checks, Conforms, IsReset, Creates;
    CreatesConform(DEFS_9, d);
    Checks10();
    Checks11(ShapesOf(DEFS_9));
    var shapes, d9 := ShapesOf(DEFS_9), ExecAll(SCRIPT_9, d).value;
    ChecksAdding(SCRIPT_12, AfterAll(SCRIPT_11, shapes));
    ChecksConcat(SCRIPT_11, SCRIPT_12, shapes);
    ChecksConcat(SCRIPT_10, SCRIPT_11 + SCRIPT_12, shapes);
    ChecksRuns(SCRIPT_10 + (SCRIPT_11 + SCRIPT_12), shapes, d9);
    ExecConcat(SCRIPT_9, SCRIPT_10 + (SCRIPT_11 + SCRIPT_12), d);
  }
}
