/** A static check of statement lists against table shapes: a list that passes does not fail on any
    database of those shapes. */
module Checker {
  import opened Strings
  import opened Sql
  import opened Replay
  import opened Scripts

  /** What is known of a table: some of its columns, and its key. */
  datatype Shape = Shape(cols: set<string>, key: seq<string>)

  type Shapes = map<TableName, Shape>

  predicate Fits(s: Stmt, shapes: Shapes) {
    match s
    case CreateTable(_, _, _, ifNotExists) => ifNotExists
    case DropTable(_) => false
    case _ => s.table in shapes && FitsShape(s, shapes[s.table])
  }

  predicate FitsShape(s: Stmt, shape: Shape) {
    match s
    case CreateIndex(_, on) => forall c | c in on :: c in shape.cols
    case Insert(_, values) => values.Keys <= shape.cols && forall c | c in shape.key :: c in values
    case Update(_, sets, cond) => Mentions(sets, cond) <= shape.cols && forall c | c in shape.key :: c !in SetCols(sets)
    case _ => true
  }

  /** The shapes after a statement: only new columns are recorded. */
  function After(s: Stmt, shapes: Shapes): Shapes {
    if s.AddColumn? && s.table in shapes then
      shapes[s.table := Shape(shapes[s.table].cols + {s.column.name}, shapes[s.table].key)]
    else shapes
  }

  function AfterAll(ss: seq<Stmt>, shapes: Shapes): Shapes
    decreases |ss|
  {
    if ss == [] then shapes else AfterAll(ss[1..], After(ss[0], shapes))
  }

  predicate Checks(ss: seq<Stmt>, shapes: Shapes)
    decreases |ss|
  {
    ss == [] || (Fits(ss[0], shapes) && Checks(ss[1..], After(ss[0], shapes)))
  }

  ghost predicate Has(d: Db, t: TableName, shape: Shape) {
    t in d && shape.cols <= Names(d[t].columns) && d[t].key == shape.key
  }

  ghost predicate Conforms(d: Db, shapes: Shapes) {
    forall t | t in shapes :: Has(d, t, shapes[t])
  }

  lemma FitsRuns(s: Stmt, shapes: Shapes, d: Db)
    requires Fits(s, shapes) && Conforms(d, shapes)
    ensures Exec(s, d).Some? && Conforms(Exec(s, d).value, After(s, shapes))
  {
    hide Names, Mentions, SetCols, KeyOf, Defaults, UpdateRow;
    if !s.CreateTable? {
      assert Has(d, s.table, shapes[s.table]);
      var t := d[s.table];
      assert ActOn(s, t).Some?;
      Grows(s, t, ActOn(s, t).value);
      if s.AddColumn? { AppendNames(t.columns, s.column); }
      var d' := Exec(s, d).value;
      forall u | u in After(s, shapes) ensures Has(d', u, After(s, shapes)[u]) {
        assert Has(d, u, shapes[u]);
      }
    } else if s.table in shapes {
      assert Has(d, s.table, shapes[s.table]);
      assert Exec(s, d) == Some(Put(d, s.table, Some(d[s.table])));
      assert Put(d, s.table, Some(d[s.table])) == d;
    } else {
      var d' := Exec(s, d).value;
      forall u | u in shapes ensures Has(d', u, shapes[u]) { assert Has(d, u, shapes[u]); }
    }
  }

  /** A list that passes the check against the shapes of a database succeeds on it. */
  lemma {:induction false} ChecksRuns(ss: seq<Stmt>, shapes: Shapes, d: Db)
    requires Checks(ss, shapes) && Conforms(d, shapes)
    ensures ExecAll(ss, d).Some? && Conforms(ExecAll(ss, d).value, AfterAll(ss, shapes))
    decreases |ss|
  {
    hide Fits, After, Conforms, Exec;
    if ss != [] {
      FitsRuns(ss[0], shapes, d);
      ChecksRuns(ss[1..], After(ss[0], shapes), Exec(ss[0], d).value);
    }
  }

  lemma {:induction false} ChecksConcat(xs: seq<Stmt>, ys: seq<Stmt>, shapes: Shapes)
    ensures Checks(xs + ys, shapes) <==> Checks(xs, shapes) && Checks(ys, AfterAll(xs, shapes))
    decreases |xs|
  {
    hide Fits, After;
    if xs == [] {
      assert xs + ys == ys;
    } else {
      assert (xs + ys)[1..] == xs[1..] + ys;
      ChecksConcat(xs[1..], ys, After(xs[0], shapes));
    }
  }

  /** Statements that add no column leave the shapes alone, so each can be checked by itself. */
  lemma {:induction false} ChecksEach(ss: seq<Stmt>, shapes: Shapes)
    requires forall s | s in ss :: Fits(s, shapes) && !s.AddColumn?
    ensures Checks(ss, shapes) && AfterAll(ss, shapes) == shapes
    decreases |ss|
  {
    hide Fits;
    if ss != [] {
      assert ss[0] in ss;
      ChecksEach(ss[1..], shapes);
    }
  }

  // ---- The shapes of created tables ----

  function ShapeOf(d: Def): Shape { Shape(Names(d.columns), d.key) }

  function ShapesOf(defs: seq<Def>): Shapes {
    if defs == [] then map[] else ShapesOf(defs[1..])[defs[0].name := ShapeOf(defs[0])]
  }

  lemma {:induction false} ShapesAre(defs: seq<Def>, t: TableName)
    ensures t in ShapesOf(defs) <==> DefOf(t, defs).Some?
    ensures t in ShapesOf(defs) ==> ShapesOf(defs)[t] == ShapeOf(DefOf(t, defs).value)
  {
    if defs != [] { ShapesAre(defs[1..], t); }
  }
}
