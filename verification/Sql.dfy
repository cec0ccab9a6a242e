/** The tables of the core database and the statements that the shipped migration scripts use. A table
    is an ordered list of columns, a primary key and rows keyed by it. Column types, NOT NULL checks
    and indexes as such are left out. Every statement touches one table, named in it. */
module Sql {
  import opened Strings
  import opened TypeRefs

  datatype Value = Null | Str(s: string) | Bool(b: bool) | Num(n: int)

  type Row = map<string, Value>

  datatype Column = Column(name: string, initial: Value)

  datatype Table = Table(columns: seq<Column>, key: seq<string>, rows: map<seq<Value>, Row>)

  /** The tables that the scripts touch, by name, and any other table. */
  datatype TableName =
    | SchemaCatalogs | SchemaCatalogDependencies | SchemaTypes | SchemaFields | SchemaArguments | SchemaEnumValues
    | SchemaDirectives | SchemaModules | SchemaModuleTypeCatalogs | SchemaDataObjects | SchemaDataObjectQueries
    | SchemaSettings | ClusterNodes | Roles | OtherTable(name: string)

  type Db = map<TableName, Table>

  function Cell(row: Row, col: string): Value { if col in row then row[col] else Null }

  // ---- Conditions, in SQL's three-valued logic ----

  datatype Truth = Yes | No | Unknown

  datatype Cond =
    | All
    | Eq(col: string, v: Value)
    | IsNull(col: string)
    | OneOf(col: string, vs: seq<Value>)
    | And(l: Cond, r: Cond)
    | Or(l: Cond, r: Cond)

  function Eval(c: Cond, row: Row): Truth {
    match c
    case All => Yes
    case Eq(col, v) => if Cell(row, col) == Null || v == Null then Unknown else if Cell(row, col) == v then Yes else No
    case IsNull(col) => if Cell(row, col) == Null then Yes else No
    case OneOf(col, vs) => if Cell(row, col) == Null then Unknown else if Cell(row, col) in vs then Yes else No
    case And(l, r) =>
      if Eval(l, row) == No || Eval(r, row) == No then No
      else if Eval(l, row) == Yes && Eval(r, row) == Yes then Yes else Unknown
    case Or(l, r) =>
      if Eval(l, row) == Yes || Eval(r, row) == Yes then Yes
      else if Eval(l, row) == No && Eval(r, row) == No then No else Unknown
  }

  function CondReads(c: Cond): set<string> {
    match c
    case All => {}
    case Eq(col, _) => {col}
    case IsNull(col) => {col}
    case OneOf(col, _) => {col}
    case And(l, r) => CondReads(l) + CondReads(r)
    case Or(l, r) => CondReads(l) + CondReads(r)
  }

  // ---- Assignments ----

  datatype Expr = Lit(v: Value) | StripOf(col: string)

  datatype Assign = Assign(col: string, expr: Expr)

  function Compute(e: Expr, row: Row): Value {
    match e
    case Lit(v) => v
    case StripOf(col) =>
      match Cell(row, col)
      case Str(s) => Str(Strip(s, IsSpace))
      case other => other
  }

  function ExprReads(e: Expr): set<string> {
    match e
    case Lit(_) => {}
    case StripOf(col) => {col}
  }

  function SetReads(sets: seq<Assign>): set<string> {
    if sets == [] then {} else ExprReads(sets[0].expr) + SetReads(sets[1..])
  }

  function SetCols(sets: seq<Assign>): set<string> {
    if sets == [] then {} else {sets[0].col} + SetCols(sets[1..])
  }

  /** The new values of the assigned columns, all computed on the row as it was. */
  function Delta(sets: seq<Assign>, row: Row): Row {
    if sets == [] then map[] else map[sets[0].col := Compute(sets[0].expr, row)] + Delta(sets[1..], row)
  }

  function UpdateRow(sets: seq<Assign>, cond: Cond, row: Row): Row {
    if Eval(cond, row) == Yes then row + Delta(sets, row) else row
  }

  // ---- Statements ----

  datatype Stmt =
    | CreateTable(table: TableName, columns: seq<Column>, key: seq<string>, ifNotExists: bool)
    | DropTable(table: TableName)                            // IF EXISTS
    | CreateIndex(table: TableName, on: seq<string>)         // IF NOT EXISTS
    | AddColumn(table: TableName, column: Column)            // IF NOT EXISTS
    | Insert(table: TableName, values: Row)                  // ON CONFLICT (key) DO NOTHING
    | Update(table: TableName, sets: seq<Assign>, cond: Cond)
    | DeleteKey(table: TableName, at: seq<Value>)

  function Names(columns: seq<Column>): set<string> {
    if columns == [] then {} else {columns[0].name} + Names(columns[1..])
  }

  function Defaults(columns: seq<Column>): Row {
    if columns == [] then map[] else Defaults(columns[1..])[columns[0].name := columns[0].initial]
  }

  function KeyOf(key: seq<string>, values: Row): (k: seq<Value>)
    ensures |k| == |key|
    ensures forall i | 0 <= i < |key| :: k[i] == Cell(values, key[i])
  {
    if key == [] then [] else [Cell(values, key[0])] + KeyOf(key[1..], values)
  }

  /** The columns an update mentions. */
  function Mentions(sets: seq<Assign>, cond: Cond): set<string> {
    SetCols(sets) + SetReads(sets) + CondReads(cond)
  }

  /** The effect of a statement on its table; None when it fails. An insert must give the whole key,
      an update must leave the key alone. */
  function Act(s: Stmt, slot: Option<Table>): Option<Option<Table>> {
    match s
    case CreateTable(_, columns, key, ifNotExists) =>
      if slot.Some? then (if ifNotExists then Some(slot) else None)
      else Some(Some(Table(columns, key, map[])))
    case DropTable(_) => Some(None)
    case _ =>
      match slot
      case None => None
      case Some(t) =>
        match ActOn(s, t)
        case None => None
        case Some(t') => Some(Some(t'))
  }

  /** The statements that need their table. */
  function ActOn(s: Stmt, t: Table): Option<Table> {
    match s
    case CreateIndex(_, on) =>
      if (forall c | c in on :: c in Names(t.columns)) then Some(t) else None
    case AddColumn(_, c) =>
      if c.name in Names(t.columns) then Some(t)
      else Some(Table(t.columns + [c], t.key, map k | k in t.rows :: t.rows[k][c.name := c.initial]))
    case Insert(_, values) =>
      if values.Keys <= Names(t.columns) && (forall c | c in t.key :: c in values) then
        var k := KeyOf(t.key, values);
        if k in t.rows then Some(t) else Some(t.(rows := t.rows[k := Defaults(t.columns) + values]))
      else None
    case Update(_, sets, cond) =>
      if Mentions(sets, cond) <= Names(t.columns) && (forall c | c in t.key :: c !in SetCols(sets)) then
        Some(t.(rows := map k | k in t.rows :: UpdateRow(sets, cond, t.rows[k])))
      else None
    case DeleteKey(_, k) => Some(t.(rows := t.rows - {k}))
    case _ => Some(t)
  }

  // ---- Running a list of statements on the database ----

  function Get(d: Db, t: TableName): Option<Table> { if t in d then Some(d[t]) else None }

  function Put(d: Db, t: TableName, slot: Option<Table>): Db {
    if slot.Some? then d[t := slot.value] else d - {t}
  }

  function Exec(s: Stmt, d: Db): Option<Db> {
    match Act(s, Get(d, s.table))
    case None => None
    case Some(slot) => Some(Put(d, s.table, slot))
  }

  function ExecAll(ss: seq<Stmt>, d: Db): Option<Db> {
    if ss == [] then Some(d) else
    match Exec(ss[0], d)
    case None => None
    case Some(d') => ExecAll(ss[1..], d')
  }

  /** The database after the statements before the first failing one. */
  function Reached(ss: seq<Stmt>, d: Db): Db {
    if ss == [] then d else
    match Exec(ss[0], d)
    case None => d
    case Some(d') => Reached(ss[1..], d')
  }

  // ---- The same, seen from one table ----

  function ActAt(t: TableName, s: Stmt, slot: Option<Table>): Option<Option<Table>> {
    if s.table == t then Act(s, slot) else Some(slot)
  }

  function On(t: TableName, ss: seq<Stmt>, slot: Option<Table>): Option<Option<Table>> {
    if ss == [] then Some(slot) else
    match ActAt(t, ss[0], slot)
    case None => None
    case Some(slot') => On(t, ss[1..], slot')
  }

  lemma {:induction false} OnConcat(t: TableName, xs: seq<Stmt>, ys: seq<Stmt>, slot: Option<Table>)
    ensures On(t, xs + ys, slot) == match On(t, xs, slot) case None => None case Some(m) => On(t, ys, m)
  {
    if xs == [] {
      assert xs + ys == ys;
    } else {
      assert (xs + ys)[1..] == xs[1..] + ys;
      if ActAt(t, xs[0], slot).Some? { OnConcat(t, xs[1..], ys, ActAt(t, xs[0], slot).value); }
    }
  }

  lemma {:induction false} ExecConcat(xs: seq<Stmt>, ys: seq<Stmt>, d: Db)
    ensures ExecAll(xs + ys, d) == match ExecAll(xs, d) case None => None case Some(m) => ExecAll(ys, m)
  {
    if xs == [] {
      assert xs + ys == ys;
    } else {
      assert (xs + ys)[1..] == xs[1..] + ys;
      if Exec(xs[0], d).Some? { ExecConcat(xs[1..], ys, Exec(xs[0], d).value); }
    }
  }

  /** A script acts on each table by itself: it succeeds exactly when it succeeds seen from every
      table, and it leaves each table as seen from that table. */
  lemma {:induction false} TablewiseAt(ss: seq<Stmt>, d: Db, t: TableName)
    requires ExecAll(ss, d).Some?
    ensures On(t, ss, Get(d, t)) == Some(Get(ExecAll(ss, d).value, t))
  {
    if ss != [] {
      TablewiseAt(ss[1..], Exec(ss[0], d).value, t);
    }
  }

  lemma {:induction false} TablewiseSucceeds(ss: seq<Stmt>, d: Db)
    requires forall t :: On(t, ss, Get(d, t)).Some?
    ensures ExecAll(ss, d).Some?
  {
    if ss != [] {
      var s := ss[0];
      assert On(s.table, ss, Get(d, s.table)).Some?;
      var d' := Exec(s, d).value;
      forall t ensures On(t, ss[1..], Get(d', t)).Some? {
        assert On(t, ss, Get(d, t)).Some?;
      }
      TablewiseSucceeds(ss[1..], d');
    }
  }

  lemma DbExtensional(d: Db, d': Db)
    requires forall t :: Get(d, t) == Get(d', t)
    ensures d == d'
  {
    forall t ensures t in d <==> t in d' { assert Get(d, t) == Get(d', t); }
    forall t | t in d ensures d[t] == d'[t] { assert Get(d, t) == Get(d', t); }
  }

  /** A script that repeats itself on every table repeats itself on the database. */
  lemma RepeatsTablewise(ss: seq<Stmt>, d: Db)
    requires ExecAll(ss, d).Some?
    requires forall t, slot :: On(t, ss, slot).Some? ==> On(t, ss, On(t, ss, slot).value) == On(t, ss, slot)
    ensures ExecAll(ss, ExecAll(ss, d).value) == ExecAll(ss, d)
  {
    var d1 := ExecAll(ss, d).value;
    forall t ensures On(t, ss, Get(d1, t)) == Some(Get(d1, t)) {
      TablewiseAt(ss, d, t);
    }
    TablewiseSucceeds(ss, d1);
    var d2 := ExecAll(ss, d1).value;
    forall t ensures Get(d1, t) == Get(d2, t) { TablewiseAt(ss, d1, t); }
    DbExtensional(d1, d2);
  }

  // ---- The database as the scripts change it, in place ----

  class CoreDb {
    var tables: Db

    method ExecStatement(s: Stmt) returns (ok: bool)
      modifies this
      ensures ok == Exec(s, old(tables)).Some?
      ensures tables == if ok then Exec(s, old(tables)).value else old(tables)
    {
      var slot := Act(s, Get(tables, s.table));
      if slot.None? { return false; }
      tables := Put(tables, s.table, slot.value);
      return true;
    }

    /** One script. Where the whole text is one transaction (Postgres) a failure leaves nothing behind;
        where each statement is its own (DuckDB) it leaves the statements before the failing one. */
    method ExecScript(ss: seq<Stmt>, atomic: bool) returns (ok: bool)
      modifies this
      ensures ok == ExecAll(ss, old(tables)).Some?
      ensures tables == if ok then ExecAll(ss, old(tables)).value
                        else if atomic then old(tables) else Reached(ss, old(tables))
    {
      var before := tables;
      for i := 0 to |ss|
        invariant ExecAll(ss, before) == ExecAll(ss[i..], tables)
        invariant Reached(ss, before) == Reached(ss[i..], tables)
      {
        assert ss[i..][1..] == ss[i + 1..];
        ok := ExecStatement(ss[i]);
        if !ok {
          if atomic { tables := before; }
          return;
        }
      }
      return true;
    }
  }

  // ---- Well-formed tables ----

  /** Every row is stored under the values of its key columns and has exactly the table's columns. */
  ghost predicate WellFormed(t: Table) {
    && (forall c | c in t.key :: c in Names(t.columns))
    && (forall k | k in t.rows :: t.rows[k].Keys == Names(t.columns) && KeyOf(t.key, t.rows[k]) == k)
  }

  lemma {:induction false} KeyOfSame(key: seq<string>, row: Row, row': Row)
    requires forall c | c in key :: Cell(row, c) == Cell(row', c)
    ensures KeyOf(key, row) == KeyOf(key, row')
  {
    if key != [] { KeyOfSame(key[1..], row, row'); }
  }

  lemma {:induction false} DefaultKeys(columns: seq<Column>)
    ensures Defaults(columns).Keys == Names(columns)
  {
    if columns != [] { DefaultKeys(columns[1..]); }
  }

  lemma {:induction false} DeltaCols(sets: seq<Assign>, row: Row)
    ensures Delta(sets, row).Keys == SetCols(sets)
  {
    if sets != [] { DeltaCols(sets[1..], row); }
  }

  lemma {:induction false} AppendNames(columns: seq<Column>, c: Column)
    ensures Names(columns + [c]) == Names(columns) + {c.name}
  {
    if columns == [] {
      assert columns + [c] == [c] && [c][1..] == [];
    } else {
      assert (columns + [c])[1..] == columns[1..] + [c];
      AppendNames(columns[1..], c);
    }
  }

  /** Every statement keeps a table well-formed. */
  lemma ActKeepsWellFormed(s: Stmt, t: Table)
    requires WellFormed(t) && ActOn(s, t).Some?
    ensures WellFormed(ActOn(s, t).value)
  {
    hide Names, Defaults, KeyOf, SetCols, Mentions, Delta, Eval;
    var t' := ActOn(s, t).value;
    match s
    case AddColumn(_, c) =>
      AppendNames(t.columns, c);
      if c.name !in Names(t.columns) {
        forall k | k in t'.rows ensures t'.rows[k].Keys == Names(t'.columns) && KeyOf(t'.key, t'.rows[k]) == k {
          KeyOfSame(t.key, t.rows[k], t'.rows[k]);
        }
      }
    case Insert(_, values) =>
      DefaultKeys(t.columns);
      var row := Defaults(t.columns) + values;
      assert row.Keys == Names(t.columns);
      KeyOfSame(t.key, values, row);
    case Update(_, sets, cond) =>
      forall k | k in t'.rows ensures t'.rows[k].Keys == Names(t'.columns) && KeyOf(t'.key, t'.rows[k]) == k {
        UpdateKeepsRow(t, s, k);
      }
    case _ =>
  }

  lemma UpdateKeepsRow(t: Table, s: Stmt, k: seq<Value>)
    requires WellFormed(t) && k in t.rows && s.Update? && ActOn(s, t).Some?
    ensures
      var row' := UpdateRow(s.sets, s.cond, t.rows[k]);
      row'.Keys == Names(t.columns) && KeyOf(t.key, row') == k
  {
    hide Names, KeyOf, Eval;
    var row := t.rows[k];
    var row' := UpdateRow(s.sets, s.cond, row);
    DeltaCols(s.sets, row);
    assert row'.Keys == Names(t.columns);
    KeyOfSame(t.key, row, row');
  }

  /** On a well-formed table with a key of one column, deleting by key deletes exactly the rows with
      that value in that column. */
  lemma DeleteByColumn(table: TableName, t: Table, col: string, v: Value)
    requires WellFormed(t) && t.key == [col]
    ensures
      var t' := ActOn(DeleteKey(table, [v]), t);
      && t'.Some?
      && t'.value.rows.Keys <= t.rows.Keys
      && forall k | k in t.rows ::
           && (k in t'.value.rows <==> Cell(t.rows[k], col) != v)
           && (k in t'.value.rows ==> t'.value.rows[k] == t.rows[k])
  {
    forall k | k in t.rows ensures k == [v] <==> Cell(t.rows[k], col) == v {
      assert KeyOf(t.key, t.rows[k]) == k;
      assert t.key[1..] == [];
      assert k == [Cell(t.rows[k], col)];
    }
  }
}
