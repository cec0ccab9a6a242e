/** When a list of statements repeats itself: each statement leaves its table as a fixed point of
    itself, and no later statement spoils that. Both are read off the statements. */
module Replay {
  import opened Strings
  import opened Sql

  ghost predicate Fixed(t: TableName, s: Stmt, slot: Option<Table>) {
    ActAt(t, s, slot) == Some(slot)
  }

  /** Statements that may be repeated at once. An update may, when its right-hand sides do not read
      the columns it assigns. */
  predicate Repeatable(s: Stmt) {
    match s
    case CreateTable(_, _, _, ifNotExists) => ifNotExists
    case Update(_, sets, _) => SetReads(sets) !! SetCols(sets)
    case _ => true
  }

  /** Statements whose fixed points are tables that exist and have certain columns. */
  predicate Structural(s: Stmt) {
    (s.CreateTable? && s.ifNotExists) || s.CreateIndex? || s.AddColumn?
  }

  /** sets' assigns everything that sets does, all of it literals, and then other columns. */
  predicate Continues(sets: seq<Assign>, sets': seq<Assign>) {
    && sets <= sets'
    && (forall a | a in sets :: a.expr.Lit?)
    && SetCols(sets'[|sets|..]) !! SetCols(sets)
  }

  /** t, running later on the same table, keeps a fixed point of s. */
  predicate Keeps(s: Stmt, t: Stmt) {
    if t.DropTable? then false
    else if t.CreateIndex? || Structural(s) then true
    else match s
    case Insert(_, values) => !t.DeleteKey? || (exists v | v in t.at :: v !in values.Values)
    case Update(_, sets, cond) =>
      (match t
       case CreateTable(_, _, _, _) => true
       case AddColumn(_, c) => c.name !in Mentions(sets, cond)
       case Update(_, sets', _) => SetCols(sets') !! Mentions(sets, cond) || Continues(sets, sets')
       case DeleteKey(_, _) => true
       case _ => false)
    case DeleteKey(_, _) => t.CreateTable? || t.AddColumn? || t.Update? || t.DeleteKey?
    case _ => false
  }

  // ---- Rows ----

  ghost predicate Agree(row: Row, row': Row, cols: set<string>) {
    forall c | c in cols :: Cell(row, c) == Cell(row', c)
  }

  lemma {:induction false} EvalFrame(c: Cond, row: Row, row': Row)
    requires Agree(row, row', CondReads(c))
    ensures Eval(c, row) == Eval(c, row')
  {
    match c
    case And(l, r) => EvalFrame(l, row, row'); EvalFrame(r, row, row');
    case Or(l, r) => EvalFrame(l, row, row'); EvalFrame(r, row, row');
    case _ =>
  }

  lemma {:induction false} DeltaFrame(sets: seq<Assign>, row: Row, row': Row)
    requires Agree(row, row', SetReads(sets))
    ensures Delta(sets, row) == Delta(sets, row')
  {
    if sets != [] {
      DeltaFrame(sets[1..], row, row');
    }
  }

  lemma MapsAssociate(a: Row, b: Row, c: Row)
    ensures (a + b) + c == a + (b + c)
  {
  }

  lemma {:induction false} DeltaConcat(xs: seq<Assign>, ys: seq<Assign>, row: Row)
    ensures Delta(xs + ys, row) == Delta(xs, row) + Delta(ys, row)
  {
    if xs == [] {
      assert xs + ys == ys;
    } else {
      assert (xs + ys)[1..] == xs[1..] + ys;
      DeltaConcat(xs[1..], ys, row);
      MapsAssociate(map[xs[0].col := Compute(xs[0].expr, row)], Delta(xs[1..], row), Delta(ys, row));
    }
  }

  lemma {:induction false} DeltaLiteral(sets: seq<Assign>, row: Row, row': Row)
    requires forall a | a in sets :: a.expr.Lit?
    ensures Delta(sets, row) == Delta(sets, row')
  {
    if sets != [] {
      assert sets[0] in sets;
      DeltaLiteral(sets[1..], row, row');
    }
  }

  /** An update whose right-hand sides do not read what it assigns is idempotent on every row. */
  lemma UpdateTwice(sets: seq<Assign>, cond: Cond, row: Row)
    requires SetReads(sets) !! SetCols(sets)
    ensures UpdateRow(sets, cond, UpdateRow(sets, cond, row)) == UpdateRow(sets, cond, row)
  {
    if Eval(cond, row) == Yes {
      DeltaCols(sets, row);
      DeltaFrame(sets, row, row + Delta(sets, row));
    }
  }

  /** Changing columns that an update does not mention commutes with it. */
  lemma UpdateElsewhere(sets: seq<Assign>, cond: Cond, row: Row, change: Row)
    requires change.Keys !! Mentions(sets, cond)
    ensures UpdateRow(sets, cond, row + change) == UpdateRow(sets, cond, row) + change
  {
    EvalFrame(cond, row, row + change);
    DeltaFrame(sets, row, row + change);
    DeltaCols(sets, row);
    MapsCommute(row, change, Delta(sets, row));
    hide Eval, Delta, SetReads, SetCols, CondReads;
  }

  lemma MapsCommute(a: Row, b: Row, c: Row)
    requires b.Keys !! c.Keys
    ensures (a + b) + c == (a + c) + b
  {
  }

  /** A row that an update leaves alone is left alone after another update that continues it. */
  lemma UpdateContinued(sets: seq<Assign>, cond: Cond, sets': seq<Assign>, cond': Cond, row: Row)
    requires UpdateRow(sets, cond, row) == row && Continues(sets, sets')
    ensures
      var row' := UpdateRow(sets', cond', row);
      UpdateRow(sets, cond, row') == row'
  {
    if Eval(cond', row) == Yes {
      var rest := sets'[|sets|..];
      assert sets' == sets + rest;
      DeltaConcat(sets, rest, row);
      DeltaCols(sets, row);
      DeltaCols(rest, row);
      DeltaLiteral(sets, row, row + Delta(sets', row));
    }
  }

  // ---- Statements ----

  /** Every repeatable statement leaves its table as a fixed point of itself. */
  lemma RepeatsAtOnce(t: TableName, s: Stmt, slot: Option<Table>)
    requires Repeatable(s) && ActAt(t, s, slot).Some?
    ensures Fixed(t, s, ActAt(t, s, slot).value)
  {
    if s.table == t {
      match s
      case AddColumn(_, c) =>
        var cols := slot.value.columns;
        AppendNames(cols, c);
      case Update(_, sets, cond) =>
        var rows := slot.value.rows;
        forall k | k in rows { UpdateTwice(sets, cond, rows[k]); }
        assert slot.Some? && ActOn(s, slot.value).Some?;
        var x := ActOn(s, slot.value).value;
        assert ActOn(s, x).value.rows == x.rows;
      case DeleteKey(_, k) =>
        var rows := slot.value.rows - {k};
        assert rows - {k} == rows;
      case _ =>
    }
  }

  /** The columns, the key and the row keys only grow under a later statement that drops no table,
      except that a deletion removes its row. */
  lemma Grows(s: Stmt, t: Table, t': Table)
    requires ActOn(s, t) == Some(t')
    ensures t'.key == t.key && Names(t.columns) <= Names(t'.columns)
    ensures forall k | k in t.rows && !(s.DeleteKey? && s.at == k) :: k in t'.rows
    ensures !s.Insert? ==> t'.rows.Keys <= t.rows.Keys
  {
    if s.AddColumn? {
      AppendNames(t.columns, s.column);
    }
  }

  lemma FixedUpdate(s: Stmt, t: Table)
    requires s.Update?
    ensures ActOn(s, t) == Some(t) <==>
      && Mentions(s.sets, s.cond) <= Names(t.columns)
      && (forall c | c in t.key :: c !in SetCols(s.sets))
      && (forall k | k in t.rows :: UpdateRow(s.sets, s.cond, t.rows[k]) == t.rows[k])
  {
    var rows := map k | k in t.rows :: UpdateRow(s.sets, s.cond, t.rows[k]);
    if ActOn(s, t) == Some(t) {
      assert rows == t.rows;
      forall k | k in t.rows ensures UpdateRow(s.sets, s.cond, t.rows[k]) == t.rows[k] { assert rows[k] == t.rows[k]; }
    }
    if forall k | k in t.rows :: UpdateRow(s.sets, s.cond, t.rows[k]) == t.rows[k] {
      assert rows == t.rows;
    }
  }

  /** One row under an update that leaves it alone, after a later statement. */
  lemma RowKept(sets: seq<Assign>, cond: Cond, later: Stmt, t: Table, t': Table, k: seq<Value>)
    requires Keeps(Update(later.table, sets, cond), later)
    requires ActOn(later, t) == Some(t') && k in t'.rows
    requires k in t.rows && UpdateRow(sets, cond, t.rows[k]) == t.rows[k]
    ensures UpdateRow(sets, cond, t'.rows[k]) == t'.rows[k]
  {
    hide Mentions, UpdateRow, Continues, Names, Delta, Eval;
    match later
    case AddColumn(_, c) =>
      UpdateElsewhere(sets, cond, t.rows[k], map[c.name := c.initial]);
      assert t'.rows[k] == t.rows[k] || t'.rows[k] == t.rows[k] + map[c.name := c.initial];
    case Update(_, sets', cond') =>
      assert t'.rows[k] == UpdateRow(sets', cond', t.rows[k]);
      RowKeptByUpdate(sets, cond, sets', cond', t.rows[k]);
    case _ =>
  }

  lemma RowKeptByUpdate(sets: seq<Assign>, cond: Cond, sets': seq<Assign>, cond': Cond, row: Row)
    requires SetCols(sets') !! Mentions(sets, cond) || Continues(sets, sets')
    requires UpdateRow(sets, cond, row) == row
    ensures
      var row' := UpdateRow(sets', cond', row);
      UpdateRow(sets, cond, row') == row'
  {
    if Continues(sets, sets') {
      UpdateContinued(sets, cond, sets', cond', row);
    } else {
      DeltaCols(sets', row);
      UpdateElsewhere(sets, cond, row, Delta(sets', row));
    }
  }

  lemma KeepsUpdate(s: Stmt, later: Stmt, t: Table, t': Table)
    requires s.Update? && later.table == s.table && Keeps(s, later)
    requires ActOn(s, t) == Some(t) && ActOn(later, t) == Some(t')
    ensures ActOn(s, t') == Some(t')
  {
    hide Keeps, UpdateRow, ActOn;
    FixedUpdate(s, t);
    FixedUpdate(s, t');
    Grows(later, t, t');
    assert !later.Insert? by { UpdateNotInsert(s, later); }
    forall k | k in t'.rows ensures UpdateRow(s.sets, s.cond, t'.rows[k]) == t'.rows[k] {
      RowKept(s.sets, s.cond, later, t, t', k);
    }
  }

  lemma UpdateNotInsert(s: Stmt, later: Stmt)
    requires s.Update? && Keeps(s, later)
    ensures !later.Insert?
  {
  }

  lemma FixedInsert(s: Stmt, t: Table)
    requires s.Insert?
    ensures ActOn(s, t) == Some(t) <==>
      && s.values.Keys <= Names(t.columns)
      && (forall c | c in t.key :: c in s.values)
      && KeyOf(t.key, s.values) in t.rows
  {
    var k, row := KeyOf(t.key, s.values), Defaults(t.columns) + s.values;
    assert k in t.rows[k := row];
  }

  /** A deletion at a key that holds a value foreign to the inserted row misses it. */
  lemma OtherKey(key: seq<string>, values: Row, at: seq<Value>)
    requires exists v | v in at :: v !in values.Values
    requires forall c | c in key :: c in values
    ensures at != KeyOf(key, values)
  {
    var v :| v in at && v !in values.Values;
    var k := KeyOf(key, values);
    forall i | 0 <= i < |k| ensures k[i] != v {
      assert k[i] == values[key[i]];
      assert values[key[i]] in values.Values;
    }
    assert v !in k;
  }

  lemma KeepsInsert(s: Stmt, later: Stmt, t: Table, t': Table)
    requires s.Insert? && Keeps(s, later)
    requires ActOn(s, t) == Some(t) && ActOn(later, t) == Some(t')
    ensures ActOn(s, t') == Some(t')
  {
    Grows(later, t, t');
    FixedInsert(s, t);
    FixedInsert(s, t');
    if later.DeleteKey? {
      OtherKey(t.key, s.values, later.at);
    }
  }

  /** The rule Keeps is right. */
  lemma KeepsFixed(t: TableName, s: Stmt, later: Stmt, slot: Option<Table>)
    requires s.table == later.table ==> Keeps(s, later)
    requires Fixed(t, s, slot) && ActAt(t, later, slot).Some?
    ensures Fixed(t, s, ActAt(t, later, slot).value)
  {
    if s.table == t && later.table == t && slot.Some? && !later.CreateTable? && !later.DropTable? {
      var tb, tb' := slot.value, ActOn(later, slot.value).value;
      match s
      case Update(_, _, _) => KeepsUpdate(s, later, tb, tb');
      case Insert(_, _) => KeepsInsert(s, later, tb, tb');
      case DeleteKey(_, k) =>
        Grows(later, tb, tb');
        assert k !in tb.rows by { assert tb.rows - {k} == tb.rows; }
        assert tb'.rows - {k} == tb'.rows;
      case _ => Grows(later, tb, tb');
    }
  }

  // ---- Lists ----

  ghost predicate HeadKept(s: Stmt, ss: seq<Stmt>) {
    forall t | t in ss && t.table == s.table :: Keeps(s, t)
  }

  ghost predicate PairwiseKept(ss: seq<Stmt>) {
    ss != [] ==> HeadKept(ss[0], ss[1..]) && PairwiseKept(ss[1..])
  }

  ghost predicate AllRepeatable(ss: seq<Stmt>) {
    forall s | s in ss :: Repeatable(s)
  }

  lemma {:induction false} StaysFixed(t: TableName, s: Stmt, ss: seq<Stmt>, slot: Option<Table>)
    requires HeadKept(s, ss) && Fixed(t, s, slot) && On(t, ss, slot).Some?
    ensures Fixed(t, s, On(t, ss, slot).value)
  {
    hide Keeps, Act;
    if ss != [] {
      assert ss[0] in ss;
      KeepsFixed(t, s, ss[0], slot);
      StaysFixed(t, s, ss[1..], ActAt(t, ss[0], slot).value);
    }
  }

  /** After the list, the table is a fixed point of each of its statements. */
  lemma {:induction false} EndsFixed(t: TableName, ss: seq<Stmt>, slot: Option<Table>)
    requires PairwiseKept(ss) && AllRepeatable(ss) && On(t, ss, slot).Some?
    ensures forall s | s in ss :: Fixed(t, s, On(t, ss, slot).value)
  {
    hide Keeps, Act, Repeatable;
    if ss != [] {
      assert ss[0] in ss;
      RepeatsAtOnce(t, ss[0], slot);
      var slot' := ActAt(t, ss[0], slot).value;
      StaysFixed(t, ss[0], ss[1..], slot');
      EndsFixed(t, ss[1..], slot');
    }
  }

  lemma {:induction false} FixedList(t: TableName, ss: seq<Stmt>, slot: Option<Table>)
    requires forall s | s in ss :: Fixed(t, s, slot)
    ensures On(t, ss, slot) == Some(slot)
  {
    hide Act;
    if ss != [] {
      assert ss[0] in ss;
      FixedList(t, ss[1..], slot);
    }
  }

  /** A pairwise kept list of repeatable statements repeats itself on every table. */
  lemma KeptRepeats(t: TableName, ss: seq<Stmt>, slot: Option<Table>)
    requires PairwiseKept(ss) && AllRepeatable(ss) && On(t, ss, slot).Some?
    ensures On(t, ss, On(t, ss, slot).value) == On(t, ss, slot)
  {
    EndsFixed(t, ss, slot);
    FixedList(t, ss, On(t, ss, slot).value);
  }

  lemma {:induction false} KeptConcat(xs: seq<Stmt>, ys: seq<Stmt>)
    ensures PairwiseKept(xs + ys) <==> PairwiseKept(xs) && PairwiseKept(ys) && forall x | x in xs :: HeadKept(x, ys)
  {
    hide Keeps;
    if xs == [] {
      assert xs + ys == ys;
    } else {
      assert (xs + ys)[1..] == xs[1..] + ys;
      assert xs == [xs[0]] + xs[1..];
      KeptConcat(xs[1..], ys);
      assert forall t :: t in xs[1..] + ys <==> t in xs[1..] || t in ys;
      if HeadKept(xs[0], xs[1..] + ys) {
        assert HeadKept(xs[0], ys) && HeadKept(xs[0], xs[1..]);
      }
      assert forall x :: x in xs <==> x == xs[0] || x in xs[1..];
    }
  }
}
