/** What a death, or a failure, between two statements of the shipped scripts can do for good: the two
    places where it is not harmless, and when it is harmless everywhere. */
module Deaths {
  import opened Strings
  import opened Versions
  import opened Sql
  import opened Replay
  import opened Scripts
  import opened Checker
  import opened Completion
  import opened Shipped
  import opened Statements

  // ---- A death inside 0.0.13 ----

  /** The table that is missing after m statements of 0.0.13: 0.0.12 needs it. */
  function Lost(m: nat): TableName { if m < 16 then SchemaFields else SchemaSettings }

  lemma {:induction false} CreatesOnly(t: TableName, defs: seq<Def>, slot: Option<Table>)
    requires forall i | 0 <= i < |defs| :: defs[i].name != t
    ensures On(t, Creates(defs, false), slot) == Some(slot)
  {
    CreatesNames(defs, false);
    Untouched(t, Creates(defs, false), slot);
  }

  lemma LostNames(m: nat)
    requires 12 <= m < 24
    ensures |DEFS_13| == 12 && forall i | 0 <= i < m - 12 :: DEFS_13[i].name != Lost(m)
  {
    DefNames();
    hide DEFS_13;
  }

  lemma LostPart(m: nat)
    requires 12 <= m < 24
    ensures |DEFS_13| == 12 && |Rest13()| == 26
    ensures Rest13()[..m - 12] == Creates(DEFS_13[..m - 12], false)
    ensures forall i | 0 <= i < m - 12 :: DEFS_13[i].name != Lost(m)
  {
    LostNames(m);
    CreatesPart(DEFS_13, m - 12);
    RestShape();
    hide DEFS_13, SCRIPT_10, SCHEMA_VERSION, DROPPED, Creates, Drops, Rest13, Lost;
    assert Rest13()[..m - 12] == Creates(DEFS_13, false)[..m - 12];
  }

  lemma RestShape()
    ensures |Creates(DEFS_13, false)| == 12 && |Rest13()| == 26
    ensures Rest13() == Creates(DEFS_13, false) + (SCRIPT_10 + [SCHEMA_VERSION])
  {
    ResetParts();
    ResetLengths();
    CreatesPart(DEFS_13, 0);
    hide DEFS_13, SCRIPT_10, SCHEMA_VERSION, DROPPED, Creates, Drops, SCRIPT_13;
  }

  lemma LostDropped(m: nat)
    requires 8 <= m < 24
    ensures |DROPPED| == 12 && IsReset(Lost(m)) && (m <= 12 ==> Lost(m) in DROPPED[..if m <= 12 then m else 0])
  {
    ResetLengths();
    assert IsReset(SchemaFields) && IsReset(SchemaSettings);
    if m <= 12 { assert DROPPED[..m][7] == SchemaFields; }
    hide DROPPED, IsReset;
  }

  /** Between its drop and its creation the table is missing. */
  lemma LostAfter(m: nat, slot: Option<Table>)
    requires 8 <= m < 24
    ensures |SCRIPT_13| == 38 && On(Lost(m), SCRIPT_13[..m], slot) == Some(None)
  {
    hide *;
    LostDropped(m);
    if m <= 12 {
      OnDropsPart(Lost(m), m, slot);
    } else {
      LostPart(m);
      OnRestPart(Lost(m), m, slot);
      CreatesOnly(Lost(m), DEFS_13[..m - 12], None);
    }
  }

  /** 0.0.12 fails when it is missing, and no part of 0.0.12 creates it. */
  lemma {:induction false} Misses12(t: TableName, ss: seq<Stmt>)
    requires forall s | s in ss && s.table == t :: s.AddColumn? || s.Insert?
    ensures On(t, ss, None) == if exists s :: s in ss && s.table == t then None else Some(None)
  {
    if ss != [] {
      assert ss[0] in ss;
      if ss[0].table != t {
        Misses12(t, ss[1..]);
        assert forall s :: s in ss <==> s == ss[0] || s in ss[1..];
      }
    }
  }

  lemma Needs12(m: nat)
    ensures forall s | s in SCRIPT_12 && s.table == Lost(m) :: s.AddColumn? || s.Insert?
    ensures exists s :: s in SCRIPT_12 && s.table == Lost(m)
  {
    assert SCRIPT_12[4].table == SchemaFields && SCRIPT_12[6] == SCHEMA_VERSION;
    VersionRowTable();
    assert SCHEMA_VERSION.Insert?;
    assert SCRIPT_12[4] in SCRIPT_12 && SCRIPT_12[6] in SCRIPT_12;
    hide SCHEMA_VERSION;
  }

  lemma Fails12(l: nat, rest: seq<Stmt>, d: Db)
    requires Lost(l) !in d
    ensures ExecAll(Script(3) + rest, d).None?
  {
    ScriptNames();
    Needs12(l);
    hide SCRIPT_12, SCRIPTS, Script, ExecAll, On, Lost;
    Misses12(Lost(l), Script(3));
    OnConcat(Lost(l), Script(3), rest, None);
    if ExecAll(Script(3) + rest, d).Some? { TablewiseAt(Script(3) + rest, d, Lost(l)); }
  }

  lemma StaysLost(l: nat, m: nat, d: Db, d1: Db)
    requires Lost(l) !in d && m <= |Script(3)| && ExecAll(Script(3)[..m], d) == Some(d1)
    ensures Lost(l) !in d1
  {
    ScriptNames();
    Needs12(l);
    hide SCRIPT_12, SCRIPTS, Script, ExecAll, On, Lost;
    var ss := Script(3)[..m];
    assert forall x | x in ss :: x in Script(3);
    Misses12(Lost(l), ss);
    TablewiseAt(ss, d, Lost(l));
  }

  lemma StuckPart(l: nat, e: nat, m: nat, d: Db, d1: Db)
    requires 3 <= e && m <= |Script(e)| && Lost(l) !in d
    requires ExecAll(Between(3, e) + Script(e)[..m], d) == Some(d1)
    ensures e == 3 && m < |Script(3)| && Lost(l) !in d1
  {
    hide *;
    BetweenNone(3);
    if e > 3 {
      var rest := StartsWith(3, e, m);
      Fails12(l, rest, d);
    } else if m == |Script(3)| {
      assert Between(3, e) + Script(e)[..m] == Script(3) + [];
      Fails12(l, [], d);
    } else {
      assert Between(3, e) + Script(e)[..m] == Script(3)[..m];
      StaysLost(l, m, d, d1);
    }
  }

  /** A run that begins at 0.0.12 without the table gets no further and changes neither the version nor
      that the table is missing. */
  lemma StuckOnce(n: nat, k: nat, s: Point, l: nat)
    requires 3 < n <= 10 && Start(n, s.version) == 3 && Lost(l) !in s.tables
    ensures
      var out := Run(n, k, s);
      out.left != [] && out.s.version == s.version && Lost(l) !in out.s.tables
  {
    FixIs();
    hide Script, Version, Start, Run, ExecAll, Compare, PlanFrom, RunSteps, Lost, Between, FIX;
    var e, m := RunStops(n, k, s);
    StuckPart(l, e, m, s.tables, Run(n, k, s).s.tables);
  }

  lemma FixIs()
    ensures FIX == 6
  {
  }

  lemma StartsWith(r: nat, e: nat, m: nat) returns (rest: seq<Stmt>)
    requires r < e && m <= |Script(e)|
    ensures Between(r, e) + Script(e)[..m] == Script(r) + rest
  {
    hide Script;
    rest := Between(r + 1, e) + Script(e)[..m];
  }

  lemma {:induction false} StuckAlways(n: nat, ks: seq<nat>, k: nat, s: Point, l: nat)
    requires 3 < n <= 10 && Start(n, s.version) == 3 && Lost(l) !in s.tables
    ensures Run(n, k, Runs(n, ks, s)).left != []
    decreases |ks|
  {
    hide Run, Start, Lost;
    if ks == [] {
      StuckOnce(n, k, s, l);
    } else {
      StuckOnce(n, ks[0], s, l);
      StuckAlways(n, ks[1..], k, Run(n, ks[0], s).s, l);
    }
  }

  /** Some schedule of further runs ends with a completed one. */
  ghost predicate Recovers(n: nat, s: Point) {
    exists ks: seq<nat>, k: nat :: Run(n, k, Runs(n, ks, s)).left == []
  }

  /** A run that stops before statement m of script e: its tables and version. */
  lemma StopsBefore(n: nat, k: nat, s: Point, e: nat, m: nat)
    requires n <= 10 && NextIs(Run(n, k, s).left, e, m)
    ensures
      var q, out := Start(n, s.version), Run(n, k, s);
      && q <= e < n && m < |Script(e)|
      && ExecAll(Between(q, e) + Script(e)[..m], s.tables) == Some(out.s.tables)
      && out.s.version == (if e == FIX then Version(FIX) else Stored(q, e, s.version))
  {
    hide Start, Run, Finishes, ExecAll, Between, Script, Version;
    var e', m' := RunStops(n, k, s);
  }

  lemma LostAtStop(n: nat, k: nat, s: Point, m: nat)
    requires n <= 10 && NextIs(Run(n, k, s).left, RESET, m) && 8 <= m < 24
    ensures Lost(m) !in Run(n, k, s).s.tables
  {
    ScriptNames();
    StopsBefore(n, k, s, RESET, m);
    LostAfter(m, None);
    hide SCRIPT_13, SCRIPTS, Script, Run, Start, ExecAll, Between, On, Lost, RESET;
    var q, t := Start(n, s.version), Lost(m);
    var xs, ys := Between(q, RESET), Script(RESET)[..m];
    TablewiseAt(xs + ys, s.tables, t);
    OnConcat(t, xs, ys, Get(s.tables, t));
    LostAfter(m, On(t, xs, Get(s.tables, t)).value);
  }

  /** After a trap no run ever completes: the table of fields or that of settings is missing, and every
      later run begins at 0.0.12, which needs them. */
  lemma TrapHolds(n: nat, k: nat, s: Point, ks: seq<nat>)
    requires n <= 10 && Trapped(Start(n, s.version), Run(n, k, s).left)
    ensures !Recovers(n, Runs(n, ks, Run(n, k, s).s))
  {
    hide *;
    var m := TrapAt(n, k, s);
    StopsBefore(n, k, s, RESET, m);
    StartStored(Start(n, s.version), RESET, n, s.version);
    ResetLength();
    LostAtStop(n, k, s, m);
    var s1 := Run(n, k, s).s;
    forall ks': seq<nat>, k': nat ensures Run(n, k', Runs(n, ks', Runs(n, ks, s1))).left != [] {
      RunsConcat(n, ks, ks', s1);
      StuckAlways(n, ks + ks', k', s1, m);
    }
    NeverRecovers(n, Runs(n, ks, s1));
  }

  lemma TrapAt(n: nat, k: nat, s: Point) returns (m: nat)
    requires Trapped(Start(n, s.version), Run(n, k, s).left)
    ensures 8 <= m < 24 && NextIs(Run(n, k, s).left, RESET, m) && Start(n, s.version) < RESET
  {
    hide Start, Run, RESET;
    m := Run(n, k, s).left[0].at;
  }

  lemma NeverRecovers(n: nat, s: Point)
    requires forall ks: seq<nat>, k: nat :: Run(n, k, Runs(n, ks, s)).left != []
    ensures !Recovers(n, s)
  {
    hide Run, Runs;
  }

  lemma {:induction false} RunsConcat(n: nat, ks: seq<nat>, ks': seq<nat>, s: Point)
    ensures Runs(n, ks', Runs(n, ks, s)) == Runs(n, ks + ks', s)
    decreases |ks|
  {
    hide Run;
    if ks == [] {
      assert [] + ks' == ks';
    } else {
      assert (ks + ks')[1..] == ks[1..] + ks';
      RunsConcat(n, ks[1..], ks', Run(n, ks[0], s).s);
    }
  }

  /** Where the goal can be reached, one more run reaches it. */
  lemma GoalRecovers(n: nat, s: Point)
    requires n <= 10 && Goal(n, s).Some?
    ensures Recovers(n, s)
  {
    WholeCompletes(n, s);
    NoRuns(n, s);
    hide Goal, Start, PlanFrom, RunSteps;
    assert Run(n, |PlanFrom(Start(n, s.version), n, s.version)|, Runs(n, [], s)).left == [];
  }

  /** A death inside 0.0.13 after m of its statements, in a run that began before it: when the run could
      have completed, later runs can complete exactly when not m is at least 8 and below 24. */
  lemma ResetDeath(n: nat, k: nat, s: Point, m: nat)
    requires n <= 10 && Start(n, s.version) < RESET && Goal(n, s).Some?
    requires NextIs(Run(n, k, s).left, RESET, m)
    ensures Recovers(n, Run(n, k, s).s) <==> !(8 <= m < 24)
  {
    FixIs();
    assert RESET == 4;
    hide Run, Start, Goal, Runs, Recovers, RESET, FIX;
    if 8 <= m < 24 {
      TrapHolds(n, k, s, []);
      NoRuns(n, Run(n, k, s).s);
    } else {
      KeepGoal(n, k, s);
      GoalRecovers(n, Run(n, k, s).s);
    }
  }

  lemma NoRuns(n: nat, s: Point)
    ensures Runs(n, [], s) == s
  {
  }

  // ---- A death inside 0.0.15 ----

  lemma OthersElsewhere(i: nat)
    requires FIX < i < 10
    ensures forall x | x in Script(i) :: x.table != SchemaFields
  {
    TableOf();
    ScriptNames();
    hide SCRIPT_9, SCRIPT_10, SCRIPT_11, SCRIPT_12, SCRIPT_13, SCRIPT_14, SCRIPT_15, SCRIPT_16, SCRIPT_17;
    hide SCRIPT_18, Script;
    assert SCRIPTS[7] == SCRIPT_16 && SCRIPTS[8] == SCRIPT_17 && SCRIPTS[9] == SCRIPT_18;
  }

  lemma {:induction false} LaterElsewhere(i: nat, n: nat)
    requires FIX < i && n <= 10
    ensures forall x | x in Between(i, n) :: x.table != SchemaFields
    decreases n - i
  {
    hide Script;
    if i < n {
      OthersElsewhere(i);
      LaterElsewhere(i + 1, n);
    }
  }

  lemma FixScript()
    ensures Script(FIX) == SCRIPT_15 && |SCRIPT_15| == 2
    ensures forall x | x in Script(FIX) :: x.table == SchemaFields
  {
    TableOf15();
    ScriptNames();
    hide SCRIPT_9, SCRIPT_10, SCRIPT_11, SCRIPT_12, SCRIPT_13, SCRIPT_14, SCRIPT_16, SCRIPT_17, SCRIPT_18, Script;
    assert SCRIPTS[6] == SCRIPT_15;
  }

  /** What later scripts make of two databases that differ in the fields at most tells whether they
      differ. */
  lemma TellsApart(n: nat, d: Db, d': Db)
    requires n <= 10 && ExecAll(Between(FIX + 1, n), d).Some?
    requires forall t | t != SchemaFields :: Get(d, t) == Get(d', t)
    ensures ExecAll(Between(FIX + 1, n), d) == ExecAll(Between(FIX + 1, n), d') <==> d == d'
  {
    var ss := Between(FIX + 1, n);
    LaterElsewhere(FIX + 1, n);
    hide ExecAll, Between, FIX;
    if ExecAll(ss, d) == ExecAll(ss, d') {
      TablewiseAt(ss, d, SchemaFields);
      TablewiseAt(ss, d', SchemaFields);
      Untouched(SchemaFields, ss, Get(d, SchemaFields));
      Untouched(SchemaFields, ss, Get(d', SchemaFields));
      DbExtensional(d, d');
    }
  }

  lemma FixPart(m: nat, d: Db, d': Db)
    requires m <= |Script(FIX)| && ExecAll(Script(FIX)[m..], d) == Some(d')
    ensures forall t | t != SchemaFields :: Get(d, t) == Get(d', t)
  {
    FixScript();
    hide ExecAll, Script, FIX, SCRIPT_15;
    var ss := Script(FIX)[m..];
    assert forall x | x in ss :: x in Script(FIX);
    forall t | t != SchemaFields ensures Get(d, t) == Get(d', t) {
      Untouched(t, ss, Get(d, t));
      TablewiseAt(ss, d, t);
    }
  }

  /** No later run begins in 0.0.15 again. */
  lemma {:induction false} PastFix(n: nat, ks: seq<nat>, s: Point)
    requires n <= 10 && Start(n, s.version) > FIX
    ensures NoTrap(n, ks, s) && NoLoss(n, ks, s)
    decreases |ks|
  {
    assert RESET < FIX;
    hide Start, Run, Runs, RESET, FIX, Lossy;
    if ks != [] {
      if Trapped(Start(n, s.version), Run(n, ks[0], s).left) {
        var m := TrapAt(n, ks[0], s);
      }
      if Lossy(Run(n, ks[0], s)) {
        var m := LossAt(n, ks[0], s);
        StopsBefore(n, ks[0], s, FIX, m);
      }
      StartKept(n, ks[0], s);
      PastFix(n, ks[1..], Run(n, ks[0], s).s);
    }
  }

  lemma LossAt(n: nat, k: nat, s: Point) returns (m: nat)
    requires n <= 10 && Lossy(Run(n, k, s))
    ensures m < |Script(FIX)| && NextIs(Run(n, k, s).left, FIX, m)
    ensures ExecAll(Script(FIX)[m..], Run(n, k, s).s.tables) != Some(Run(n, k, s).s.tables)
  {
    hide Start, Run, ExecAll, Script, FIX;
    m := Run(n, k, s).left[0].at;
    StopsBefore(n, k, s, FIX, m);
  }

  /** A stop inside 0.0.15 after m of its updates: runs that follow skip what is left of 0.0.15. When the
      uninterrupted run completes, they end with its tables exactly when the updates that are left would
      change nothing. */
  lemma FixDeath(n: nat, k: nat, s: Point, m: nat, ks: seq<nat>, k': nat)
    requires n <= 10 && Goal(n, s).Some? && NextIs(Run(n, k, s).left, FIX, m)
    requires Run(n, k', Runs(n, ks, Run(n, k, s).s)).left == []
    ensures m < |Script(FIX)|
    ensures
      var d, last := Run(n, k, s).s.tables, Run(n, k', Runs(n, ks, Run(n, k, s).s)).s;
      last.tables == Whole(n, s).s.tables <==> ExecAll(Script(FIX)[m..], d) == Some(d)
  {
    hide *;
    StopsBefore(n, k, s, FIX, m);
    StartAfter(FIX, n);
    var s1, q := Run(n, k, s).s, Start(n, s.version);
    PastFix(n, ks, s1);
    GoalsKept(n, ks, s1);
    CompletedRun(n, k', Runs(n, ks, s1));
    WholeRuns(n, s);
    GoalIs(n, s1);
    GoalIs(n, s);
    FixRest(n, q, m, s.tables, s1.tables);
    var full := ExecAll(Script(FIX)[m..], s1.tables).value;
    FixPart(m, s1.tables, full);
    TellsApart(n, full, s1.tables);
  }

  // ---- Which schedules are harmless ----

  /** The scripts after 0.0.15 succeed on two databases alike that differ in the fields at most. */
  lemma LaterSucceeds(n: nat, d: Db, d': Db)
    requires n <= 10 && ExecAll(Between(FIX + 1, n), d).Some?
    requires forall t | t != SchemaFields :: Get(d, t) == Get(d', t)
    ensures ExecAll(Between(FIX + 1, n), d').Some?
  {
    var ss := Between(FIX + 1, n);
    LaterElsewhere(FIX + 1, n);
    hide ExecAll, Between, FIX, On;
    forall t ensures On(t, ss, Get(d', t)).Some? {
      if t == SchemaFields { Untouched(t, ss, Get(d', t)); } else { TablewiseAt(ss, d, t); }
    }
    TablewiseSucceeds(ss, d');
  }

  /** A run that is not trapped leaves a goal that can be reached. */
  lemma KeepsReachable(n: nat, k: nat, s: Point)
    requires n <= 10 && Goal(n, s).Some? && !Trapped(Start(n, s.version), Run(n, k, s).left)
    ensures Goal(n, Run(n, k, s).s).Some?
  {
    hide *;
    var s1 := Run(n, k, s).s;
    if Lossy(Run(n, k, s)) {
      var m := LossAt(n, k, s);
      StopsBefore(n, k, s, FIX, m);
      StartAfter(FIX, n);
      GoalIs(n, s);
      GoalIs(n, s1);
      FixRest(n, Start(n, s.version), m, s.tables, s1.tables);
      var full := ExecAll(Script(FIX)[m..], s1.tables).value;
      FixPart(m, s1.tables, full);
      LaterSucceeds(n, full, s1.tables);
    } else {
      KeepGoal(n, k, s);
    }
  }

  lemma {:induction false} RecoversExactly(n: nat, s: Point, ks: seq<nat>)
    requires n <= 10 && Goal(n, s).Some?
    ensures Recovers(n, Runs(n, ks, s)) <==> NoTrap(n, ks, s)
    decreases |ks|
  {
    hide Goal, Start, Run, Trapped, Recovers;
    if ks == [] {
      GoalRecovers(n, s);
    } else if Trapped(Start(n, s.version), Run(n, ks[0], s).left) {
      TrapHolds(n, ks[0], s, ks[1..]);
    } else {
      KeepsReachable(n, ks[0], s);
      RecoversExactly(n, Run(n, ks[0], s).s, ks[1..]);
    }
  }

  lemma {:induction false} TablesExactly(n: nat, s: Point, ks: seq<nat>, k: nat)
    requires n <= 10 && Goal(n, s).Some? && Run(n, k, Runs(n, ks, s)).left == []
    ensures Some(Run(n, k, Runs(n, ks, s)).s.tables) == Goal(n, s) <==> NoLoss(n, ks, s)
    decreases |ks|
  {
    hide Goal, Start, Run, Trapped, Recovers, Lossy;
    if ks == [] {
      CompletedRun(n, k, s);
    } else {
      var s1 := Run(n, ks[0], s).s;
      CompletedRecovers(n, ks[1..], s1, k);
      if Trapped(Start(n, s.version), Run(n, ks[0], s).left) {
        TrapHolds(n, ks[0], s, ks[1..]);
      } else if Lossy(Run(n, ks[0], s)) {
        LossHolds(n, ks[0], s, ks[1..], k);
      } else {
        KeepGoal(n, ks[0], s);
        TablesExactly(n, s1, ks[1..], k);
      }
    }
  }

  lemma CompletedRecovers(n: nat, ks: seq<nat>, s: Point, k: nat)
    requires Run(n, k, Runs(n, ks, s)).left == []
    ensures Recovers(n, Runs(n, ks, s))
  {
    NoRuns(n, Runs(n, ks, s));
    hide Run, Runs;
    assert Run(n, k, Runs(n, [], Runs(n, ks, s))).left == [];
  }

  /** What a run loses is never made up for. */
  lemma LossHolds(n: nat, k: nat, s: Point, ks: seq<nat>, k': nat)
    requires n <= 10 && Goal(n, s).Some? && Lossy(Run(n, k, s))
    requires Run(n, k', Runs(n, ks, Run(n, k, s).s)).left == []
    ensures Some(Run(n, k', Runs(n, ks, Run(n, k, s).s)).s.tables) != Goal(n, s)
  {
    hide *;
    var m := LossAt(n, k, s);
    FixDeath(n, k, s, m, ks, k');
    WholeRuns(n, s);
  }

  /** Any schedule of deaths and failures, where one uninterrupted run would complete: later runs can
      complete exactly when no run was trapped, and runs that complete have stored the version of that
      run, and have its tables exactly when no run lost updates. */
  lemma StepsExactly(n: nat, s0: Point, ks: seq<nat>, k: nat)
    requires n <= 10 && Goal(n, s0).Some?
    ensures Recovers(n, Runs(n, ks, s0)) <==> NoTrap(n, ks, s0)
    ensures
      var last, once := Run(n, k, Runs(n, ks, s0)), Whole(n, s0);
      last.left == [] ==> last.s.version == once.s.version && (last.s.tables == once.s.tables <==> NoLoss(n, ks, s0))
  {
    hide *;
    RecoversExactly(n, s0, ks);
    WholeRuns(n, s0);
    if Run(n, k, Runs(n, ks, s0)).left == [] {
      TablesExactly(n, s0, ks, k);
      CompletedRun(n, k, Runs(n, ks, s0));
      LastVersion(n, s0, ks);
    }
  }

  // ---- The rows that a death inside 0.0.15 leaves wrong ----

  /** The row is as the updates of 0.0.15 from m on would leave it. */
  predicate Settled(row: Row, m: nat) {
    && (m == 0 && (Cell(row, "hugr_type") == Str("submodule") || Cell(row, "catalog") == Str("_system")) ==>
          "dependency_catalog" in row && row["dependency_catalog"] == Null)
    && (Cell(row, "type_name") in {Str("Query"), Str("Mutation")} && Cell(row, "name") == Str("function") ==>
          && "dependency_catalog" in row && row["dependency_catalog"] == Null
          && "catalog" in row && row["catalog"] == Str("_system"))
  }

  /** The rows that the two updates select. */
  lemma FixConds(row: Row)
    ensures |SCRIPT_15| == 2 && SCRIPT_15[0].Update? && SCRIPT_15[1].Update?
    ensures Eval(SCRIPT_15[0].cond, row) == Yes <==>
      Cell(row, "hugr_type") == Str("submodule") || Cell(row, "catalog") == Str("_system")
    ensures Eval(SCRIPT_15[1].cond, row) == Yes <==>
      Cell(row, "type_name") in {Str("Query"), Str("Mutation")} && Cell(row, "name") == Str("function")
  {
  }

  lemma FixDeltas(row: Row)
    ensures |SCRIPT_15| == 2 && SCRIPT_15[0].Update? && SCRIPT_15[1].Update?
    ensures Delta(SCRIPT_15[0].sets, row) == map["dependency_catalog" := Null]
    ensures Delta(SCRIPT_15[1].sets, row) == map["dependency_catalog" := Null, "catalog" := Str("_system")]
  {
    var sets, sets' := SCRIPT_15[0].sets, SCRIPT_15[1].sets;
    assert sets[1..] == [] && sets'[1..] == [Assign("catalog", Lit(Str("_system")))] && sets'[1..][1..] == [];
    assert Delta(sets, row) == map["dependency_catalog" := Null] + Delta([], row);
    assert Delta(sets'[1..], row) == map["catalog" := Str("_system")] + Delta([], row);
  }

  function FixedBy(u: Stmt, row: Row): Row
    requires u.Update?
  {
    UpdateRow(u.sets, u.cond, row)
  }

  lemma RowSettled(row: Row)
    ensures |SCRIPT_15| == 2 && SCRIPT_15[0].Update? && SCRIPT_15[1].Update?
    ensures Settled(row, 1) <==> FixedBy(SCRIPT_15[1], row) == row
    ensures Settled(row, 0) <==> FixedBy(SCRIPT_15[1], FixedBy(SCRIPT_15[0], row)) == row
  {
    FixDeltas(row);
    FixConds(row);
    var row1 := FixedBy(SCRIPT_15[0], row);
    FixDeltas(row1);
    FixConds(row1);
    hide Delta;
    hide Eval, SCRIPT_15;
    if row1 != row {
      assert row1["dependency_catalog"] == Null;
      assert FixedBy(SCRIPT_15[1], row1)["dependency_catalog"] == Null;
    }
  }

  lemma UpdatedRows(u: Stmt, d: Db, d': Db)
    requires u.Update? && Exec(u, d) == Some(d')
    ensures u.table in d && u.table in d' && d'[u.table].rows.Keys == d[u.table].rows.Keys
    ensures forall k | k in d[u.table].rows :: d'[u.table].rows[k] == FixedBy(u, d[u.table].rows[k])
    ensures d' == d[u.table := d[u.table].(rows := d'[u.table].rows)]
  {
    hide UpdateRow, Mentions, Names, SetCols;
  }

  lemma SameRows(t: TableName, d: Db, d': Db)
    requires t in d && t in d' && d'[t].rows.Keys == d[t].rows.Keys
    requires d' == d[t := d[t].(rows := d'[t].rows)]
    ensures d' == d <==> forall k | k in d[t].rows :: d'[t].rows[k] == d[t].rows[k]
  {
    if forall k | k in d[t].rows :: d'[t].rows[k] == d[t].rows[k] {
      assert d'[t].rows == d[t].rows;
    }
  }

  lemma ExecOne(x: Stmt, d: Db)
    ensures ExecAll([x], d) == Exec(x, d)
  {
    hide Exec;
    assert [x][1..] == [];
  }

  /** The updates of 0.0.15 from m on, one row at a time. */
  function FixedFrom(m: nat, row: Row): Row {
    if |SCRIPT_15| == 2 && SCRIPT_15[0].Update? && SCRIPT_15[1].Update? then
      FixedBy(SCRIPT_15[1], if m == 0 then FixedBy(SCRIPT_15[0], row) else row)
    else row
  }

  lemma FixSteps(m: nat, d: Db) returns (d': Db)
    requires m < 2 && |SCRIPT_15| == 2 && ExecAll(SCRIPT_15[m..], d).Some?
    ensures ExecAll(SCRIPT_15[m..], d) == Some(d')
    ensures SchemaFields in d && SchemaFields in d' && d'[SchemaFields].rows.Keys == d[SchemaFields].rows.Keys
    ensures d' == d[SchemaFields := d[SchemaFields].(rows := d'[SchemaFields].rows)]
    ensures forall k | k in d[SchemaFields].rows :: d'[SchemaFields].rows[k] == FixedFrom(m, d[SchemaFields].rows[k])
  {
    TableOf15();
    FixDeltas(map[]);
    d' := ExecAll(SCRIPT_15[m..], d).value;
    hide SCRIPT_15, FixedBy, Exec;
    var ss := SCRIPT_15;
    assert ss[0] in ss && ss[1] in ss;
    assert ss[1..] == [ss[1]] && ss[0..] == ss;
    var d1 := if m == 0 then Exec(ss[0], d).value else d;
    if m == 0 {
      UpdatedRows(ss[0], d, d1);
      assert ExecAll(ss, d) == ExecAll(ss[1..], d1);
    }
    ExecOne(ss[1], d1);
    UpdatedRows(ss[1], d1, d');
  }

  lemma FromSettled(m: nat, row: Row)
    requires m < 2
    ensures Settled(row, m) <==> FixedFrom(m, row) == row
  {
    RowSettled(row);
    hide Settled, FixedBy;
  }

  lemma FixRows(m: nat, d: Db) returns (d': Db)
    requires m < 2 && |SCRIPT_15| == 2 && ExecAll(SCRIPT_15[m..], d).Some?
    ensures ExecAll(SCRIPT_15[m..], d) == Some(d')
    ensures SchemaFields in d && SchemaFields in d' && d'[SchemaFields].rows.Keys == d[SchemaFields].rows.Keys
    ensures d' == d[SchemaFields := d[SchemaFields].(rows := d'[SchemaFields].rows)]
    ensures forall k | k in d[SchemaFields].rows ::
      Settled(d[SchemaFields].rows[k], m) <==> d'[SchemaFields].rows[k] == d[SchemaFields].rows[k]
  {
    hide *;
    d' := FixSteps(m, d);
    forall k | k in d[SchemaFields].rows
      ensures Settled(d[SchemaFields].rows[k], m) <==> d'[SchemaFields].rows[k] == d[SchemaFields].rows[k]
    {
      FromSettled(m, d[SchemaFields].rows[k]);
    }
  }

  /** What is left of 0.0.15 changes nothing exactly when every row of the fields is settled. */
  lemma FixSettled(m: nat, d: Db)
    requires m < |Script(FIX)| && ExecAll(Script(FIX)[m..], d).Some?
    ensures SchemaFields in d
    ensures ExecAll(Script(FIX)[m..], d) == Some(d) <==>
      forall k | k in d[SchemaFields].rows :: Settled(d[SchemaFields].rows[k], m)
  {
    hide *;
    FixScript();
    var d' := FixRows(m, d);
    SameRows(SchemaFields, d, d');
  }

  /** A run that stops inside 0.0.15 loses updates exactly when some row of the fields is not settled. */
  lemma LossyRows(n: nat, k: nat, s: Point, m: nat)
    requires n <= 10 && Goal(n, s).Some? && NextIs(Run(n, k, s).left, FIX, m)
    ensures SchemaFields in Run(n, k, s).s.tables
    ensures Lossy(Run(n, k, s)) <==>
      var rows := Run(n, k, s).s.tables[SchemaFields].rows;
      exists key :: key in rows && !Settled(rows[key], m)
  {
    hide *;
    var d := Run(n, k, s).s.tables;
    StopsBefore(n, k, s, FIX, m);
    GoalIs(n, s);
    FixRest(n, Start(n, s.version), m, s.tables, d);
    FixSettled(m, d);
    LossyIs(Run(n, k, s), m);
  }

  lemma LossyIs(out: Stop, m: nat)
    requires NextIs(out.left, FIX, m) && m < |Script(FIX)|
    ensures Lossy(out) <==> ExecAll(Script(FIX)[m..], out.s.tables) != Some(out.s.tables)
  {
    hide Script, ExecAll, FIX;
  }

  // ---- A death can come before any pending statement ----

  lemma {:induction false} InChanges(i: nat, m: nat, m': nat)
    requires m <= m' < |Script(i)|
    ensures Change(i, m') in Changes(i, m)
    decreases m' - m
  {
    hide Script;
    if m < m' { InChanges(i, m + 1, m'); }
  }

  lemma {:induction false} InPlan(i: nat, n: nat, local: string, e: nat, m: nat)
    requires i <= e < n && m < |Script(e)|
    ensures Change(e, m) in PlanFrom(i, n, local)
    decreases e - i
  {
    hide Script, Version, Changes;
    if i == e { InChanges(e, 0, m); } else { InPlan(i + 1, n, Version(i), e, m); }
  }

  /** Cut after k steps, a run that would complete has the other steps left. */
  lemma {:induction false} CutWhole(steps: seq<Step>, k: nat, s: Point)
    requires RunSteps(steps, |steps|, s).left == [] && k <= |steps|
    ensures RunSteps(steps, k, s).left == steps[k..]
    decreases k
  {
    hide Do;
    if k > 0 { CutWhole(steps[1..], k - 1, Do(steps[0], s).value); }
  }

  lemma Reaches(n: nat, s: Point, e: nat, m: nat) returns (k: nat)
    requires n <= 10 && Goal(n, s).Some? && Start(n, s.version) <= e < n && m < |Script(e)|
    ensures NextIs(Run(n, k, s).left, e, m)
  {
    hide *;
    WholeCompletes(n, s);
    var plan := PlanFrom(Start(n, s.version), n, s.version);
    InPlan(Start(n, s.version), n, s.version, e, m);
    k :| 0 <= k < |plan| && plan[k] == Change(e, m);
    RunOf(n, k, s);
    CutWhole(plan, k, s);
    NextAt(plan, k, e, m);
  }

  lemma RunOf(n: nat, k: nat, s: Point)
    ensures
      var plan := PlanFrom(Start(n, s.version), n, s.version);
      Run(n, k, s) == RunSteps(plan, k, s) && Whole(n, s) == RunSteps(plan, |plan|, s)
  {
    hide Start, PlanFrom, RunSteps;
  }

  lemma NextAt(plan: seq<Step>, k: nat, e: nat, m: nat)
    requires k < |plan| && plan[k] == Change(e, m)
    ensures NextIs(plan[k..], e, m)
  {
  }

  /** From every point before 0.0.13 that could be migrated past it, some death makes every later run
      fail. */
  lemma SomeTrap(n: nat, s: Point) returns (k: nat)
    requires n <= 10 && Start(n, s.version) < RESET < n && Goal(n, s).Some?
    ensures !Recovers(n, Run(n, k, s).s)
  {
    hide *;
    ResetLength();
    k := Reaches(n, s, RESET, 8);
    ResetDeath(n, k, s, 8);
  }

  // ---- Which databases no death can harm ----

  /** 0.0.15, when the pending scripts get there, has nothing to do. */
  ghost predicate Idle(n: nat, s: Point) {
    var q := Start(n, s.version);
    q <= FIX < n ==> ExecAll(Between(q, FIX) + Script(FIX), s.tables) == ExecAll(Between(q, FIX), s.tables)
  }

  lemma FirstSettled(row: Row)
    requires Settled(row, 0)
    ensures |SCRIPT_15| == 2 && SCRIPT_15[0].Update?
    ensures FixedBy(SCRIPT_15[0], row) == row && Settled(row, 1)
  {
    FixDeltas(row);
    FixConds(row);
    hide SCRIPT_15;
  }

  lemma AllSettled(d: Db)
    requires ExecAll(Script(FIX), d) == Some(d)
    ensures SchemaFields in d && forall k | k in d[SchemaFields].rows :: Settled(d[SchemaFields].rows[k], 0)
  {
    hide *;
    FixScript();
    assert Script(FIX)[0..] == Script(FIX);
    FixSettled(0, d);
  }

  lemma FirstUpdate(d: Db) returns (d1: Db)
    requires |SCRIPT_15| == 2 && SCRIPT_15[0].Update? && ExecAll(SCRIPT_15, d).Some?
    ensures ExecAll(SCRIPT_15[..1], d) == Some(d1)
    ensures SchemaFields in d && SchemaFields in d1 && d1[SchemaFields].rows.Keys == d[SchemaFields].rows.Keys
    ensures d1 == d[SchemaFields := d[SchemaFields].(rows := d1[SchemaFields].rows)]
    ensures forall k | k in d[SchemaFields].rows ::
      d1[SchemaFields].rows[k] == FixedBy(SCRIPT_15[0], d[SchemaFields].rows[k])
  {
    TableOf15();
    hide SCRIPT_15, FixedBy, Exec;
    var u := SCRIPT_15[0];
    assert u in SCRIPT_15 && SCRIPT_15[..1] == [u];
    ExecOne(u, d);
    d1 := Exec(u, d).value;
    UpdatedRows(u, d, d1);
  }

  lemma FirstIdle(d: Db)
    requires 1 <= |Script(FIX)| && ExecAll(Script(FIX), d) == Some(d)
    ensures ExecAll(Script(FIX)[..1], d) == Some(d)
  {
    hide *;
    AllSettled(d);
    FixScript();
    FixDeltas(map[]);
    var d1 := FirstUpdate(d);
    forall k | k in d[SchemaFields].rows ensures d1[SchemaFields].rows[k] == d[SchemaFields].rows[k] {
      FirstSettled(d[SchemaFields].rows[k]);
    }
    SameRows(SchemaFields, d, d1);
  }

  /** Where both updates of 0.0.15 together change nothing, neither does the first alone. */
  lemma IdlePart(m: nat, d: Db)
    requires m <= |Script(FIX)| && ExecAll(Script(FIX), d) == Some(d)
    ensures ExecAll(Script(FIX)[..m], d) == Some(d) && ExecAll(Script(FIX)[m..], d) == Some(d)
  {
    FixScript();
    hide ExecAll, Script, SCRIPT_15, FIX;
    var ss := Script(FIX);
    assert ss == ss[..m] + ss[m..];
    ExecConcat(ss[..m], ss[m..], d);
    NothingDone(FIX, Point(d, ""));
    if m == 0 {
      assert ss[m..] == ss;
    } else if m == 1 {
      FirstIdle(d);
    } else {
      assert ss[..m] == ss;
    }
  }

  /** When the scripts before 0.0.15 lead to d2, 0.0.15 is idle exactly when it leaves d2 alone. */
  lemma IdleIs(n: nat, s: Point, d2: Db)
    requires Start(n, s.version) <= FIX < n
    requires ExecAll(Between(Start(n, s.version), FIX), s.tables) == Some(d2)
    ensures Idle(n, s) <==> ExecAll(Script(FIX), d2) == Some(d2)
  {
    hide Start, Between, Script, ExecAll, FIX;
    ExecConcat(Between(Start(n, s.version), FIX), Script(FIX), s.tables);
  }

  lemma ReachesFix(n: nat, s: Point) returns (d2: Db)
    requires Goal(n, s).Some? && Start(n, s.version) <= FIX < n
    ensures ExecAll(Between(Start(n, s.version), FIX), s.tables) == Some(d2)
  {
    hide *;
    var q := Start(n, s.version);
    GoalIs(n, s);
    BetweenConcat(q, FIX, n);
    ExecConcat(Between(q, FIX), Between(FIX, n), s.tables);
    d2 := ExecAll(Between(q, FIX), s.tables).value;
  }

  /** A run that stops after m statements of 0.0.15, where that is idle. */
  lemma StopsIdle(q: nat, m: nat, d: Db, d1: Db, d2: Db)
    requires m <= |Script(FIX)| && ExecAll(Between(q, FIX) + Script(FIX)[..m], d) == Some(d1)
    requires ExecAll(Between(q, FIX), d) == Some(d2) && ExecAll(Script(FIX), d2) == Some(d2)
    ensures d1 == d2 && ExecAll(Script(FIX)[m..], d1) == Some(d1)
  {
    hide *;
    IdlePart(m, d2);
    ExecConcat(Between(q, FIX), Script(FIX)[..m], d);
  }

  lemma NoLossIdle(n: nat, k: nat, s: Point)
    requires n <= 10 && Goal(n, s).Some? && Idle(n, s)
    ensures !Lossy(Run(n, k, s))
  {
    hide *;
    if Lossy(Run(n, k, s)) {
      var m := LossAt(n, k, s);
      StopsBefore(n, k, s, FIX, m);
      var d2 := ReachesFix(n, s);
      IdleIs(n, s, d2);
      StopsIdle(Start(n, s.version), m, s.tables, Run(n, k, s).s.tables, d2);
    }
  }

  /** Doing the part up to script e again leads to 0.0.15 with the same tables. */
  lemma AgainToFix(q: nat, r: nat, e: nat, m: nat, d: Db, d1: Db)
    requires q <= r <= e < FIX && m <= |Script(e)| && (r == e || r + 1 == e) && !(r == 3 && e == RESET && 8 <= m < 24)
    requires ExecAll(Between(q, e) + Script(e)[..m], d) == Some(d1)
    ensures ExecAll(Between(r, FIX), d1) == ExecAll(Between(q, FIX), d)
  {
    FixIs();
    hide *;
    PairRepeats(r, e, m);
    GoalFrom(FIX, q, r, e, m, d, d1);
  }

  lemma AtFix(q: nat, r: nat, d: Db, d2: Db)
    requires q <= r <= FIX && (r == FIX || r + 1 == FIX) && ExecAll(Between(q, FIX), d) == Some(d2)
    ensures ExecAll(Between(r, FIX), d2) == Some(d2)
  {
    FixIs();
    ResetLength();
    hide *;
    assert Between(q, FIX) + Script(FIX)[..0] == Between(q, FIX);
    PairRepeats(r, FIX, 0);
    GoalFrom(FIX, q, r, FIX, 0, d, d2);
  }

  /** Statements on other tables leave 0.0.15 idle. */
  lemma StaysIdle(later: seq<Stmt>, d: Db, d1: Db)
    requires ExecAll(Script(FIX), d) == Some(d) && ExecAll(later, d) == Some(d1)
    requires forall x | x in later :: x.table != SchemaFields
    ensures ExecAll(Script(FIX), d1) == Some(d1)
  {
    hide *;
    FixScript();
    var ss := Script(FIX);
    forall t ensures On(t, ss, Get(d1, t)) == Some(Get(d1, t)) {
      if t == SchemaFields {
        TablewiseAt(later, d, t);
        Untouched(t, later, Get(d, t));
        TablewiseAt(ss, d, t);
      } else {
        Untouched(t, ss, Get(d1, t));
      }
    }
    TablewiseFixed(ss, d1);
  }

  /** A part of 0.0.16 does. */
  lemma PastIdle(q: nat, m: nat, d: Db, d1: Db, d2: Db)
    requires q <= FIX && m <= |Script(FIX + 1)|
    requires ExecAll(Between(q, FIX + 1) + Script(FIX + 1)[..m], d) == Some(d1)
    requires ExecAll(Between(q, FIX), d) == Some(d2) && ExecAll(Script(FIX), d2) == Some(d2)
    ensures ExecAll(Script(FIX), d1) == Some(d1)
  {
    FixIs();
    hide *;
    var ss, later := Script(FIX), Script(FIX + 1)[..m];
    BetweenConcat(q, FIX, FIX + 1);
    BetweenOne(FIX);
    OthersElsewhere(FIX + 1);
    assert forall x | x in later :: x in Script(FIX + 1);
    assert Between(q, FIX + 1) + later == Between(q, FIX) + (ss + later);
    ExecConcat(Between(q, FIX), ss + later, d);
    ExecConcat(ss, later, d2);
    StaysIdle(later, d2, d1);
  }

  lemma TablewiseFixed(ss: seq<Stmt>, d: Db)
    requires forall t :: On(t, ss, Get(d, t)) == Some(Get(d, t))
    ensures ExecAll(ss, d) == Some(d)
  {
    hide On, ExecAll;
    TablewiseSucceeds(ss, d);
    var d1 := ExecAll(ss, d).value;
    forall t ensures Get(d, t) == Get(d1, t) { TablewiseAt(ss, d, t); }
    DbExtensional(d, d1);
  }

  /** A run that is not trapped leaves 0.0.15 idle. */
  lemma KeepsIdle(n: nat, k: nat, s: Point)
    requires n <= 10 && Goal(n, s).Some? && Idle(n, s)
    requires !Trapped(Start(n, s.version), Run(n, k, s).left)
    ensures Idle(n, Run(n, k, s).s)
  {
    hide *;
    var s1 := Run(n, k, s).s;
    StartKept(n, k, s);
    if Start(n, s1.version) <= FIX < n {
      KeepsReachable(n, k, s);
      var d2 := ReachesFix(n, s);
      IdleIs(n, s, d2);
      var d3 := ReachesFix(n, s1);
      IdleIs(n, s1, d3);
      IdleAgain(n, k, s, d2, d3);
    } else {
      IdleBeyond(n, s1);
    }
  }

  lemma IdleBeyond(n: nat, s: Point)
    requires !(Start(n, s.version) <= FIX < n)
    ensures Idle(n, s)
  {
    hide Start, FIX;
  }

  lemma WholePart(q: nat, e: nat)
    requires q <= e
    ensures Between(q, e) + Script(e)[..|Script(e)|] == Between(q, e + 1) + Script(e + 1)[..0]
  {
    BetweenConcat(q, e, e + 1);
    BetweenOne(e);
    hide *;
  }

  /** Where a run that stopped begins again: at the script that it stopped in or at the one before. */
  lemma BeginsAgain(n: nat, k: nat, s: Point) returns (e: nat, m: nat)
    requires n <= 10 && Start(n, Run(n, k, s).s.version) <= FIX < n
    requires !Trapped(Start(n, s.version), Run(n, k, s).left)
    ensures
      var q, r, s1 := Start(n, s.version), Start(n, Run(n, k, s).s.version), Run(n, k, s).s;
      && q <= r <= e <= n && (r == e || r + 1 == e) && m <= |Script(e)|
      && !(r == 3 && e == RESET && 8 <= m < 24)
      && ExecAll(Between(q, e) + Script(e)[..m], s.tables) == Some(s1.tables)
  {
    ResetLength();
    hide Script, Version, Start, Run, ExecAll, Between, Compare, PlanFrom, RunSteps, RESET, FIX, Repeats;
    var q, out := Start(n, s.version), Run(n, k, s);
    e, m := RunStops(n, k, s);
    if out.left == [] {
      StartLocal(n, s.version);
    } else if out.s.version == Stored(q, e, s.version) {
      StartStored(q, e, n, s.version);
    } else {
      StartAfter(e, n);
      assert m == |Script(e)|;
      WholePart(q, e);
      e, m := e + 1, 0;
    }
  }

  lemma IdleAgain(n: nat, k: nat, s: Point, d2: Db, d3: Db)
    requires n <= 10 && Start(n, Run(n, k, s).s.version) <= FIX < n
    requires !Trapped(Start(n, s.version), Run(n, k, s).left) && Start(n, s.version) <= FIX
    requires ExecAll(Between(Start(n, s.version), FIX), s.tables) == Some(d2) && ExecAll(Script(FIX), d2) == Some(d2)
    requires ExecAll(Between(Start(n, Run(n, k, s).s.version), FIX), Run(n, k, s).s.tables) == Some(d3)
    ensures ExecAll(Script(FIX), d3) == Some(d3)
  {
    hide *;
    var s1 := Run(n, k, s).s;
    var q, r := Start(n, s.version), Start(n, s1.version);
    var e, m := BeginsAgain(n, k, s);
    if e < FIX {
      AgainToFix(q, r, e, m, s.tables, s1.tables);
    } else if e == FIX {
      StopsIdle(q, m, s.tables, s1.tables, d2);
      AtFix(q, r, s.tables, d2);
    } else {
      PastIdle(q, m, s.tables, s1.tables, d2);
      BetweenNone(FIX);
      NothingDone(0, s1);
      assert Between(r, FIX) == Script(0)[..0];
    }
  }

  lemma {:induction false} SafeSchedule(n: nat, s: Point, ks: seq<nat>)
    requires n <= 10 && Goal(n, s).Some? && Idle(n, s) && (n <= RESET || RESET <= Start(n, s.version))
    ensures NoTrap(n, ks, s) && NoLoss(n, ks, s)
    decreases |ks|
  {
    hide Goal, Idle, Start, Run, Lossy, RESET;
    if ks != [] {
      if Trapped(Start(n, s.version), Run(n, ks[0], s).left) {
        var m := TrapAt(n, ks[0], s);
        StopsBefore(n, ks[0], s, RESET, m);
      }
      NoLossIdle(n, ks[0], s);
      KeepsReachable(n, ks[0], s);
      KeepsIdle(n, ks[0], s);
      StartKept(n, ks[0], s);
      SafeSchedule(n, Run(n, ks[0], s).s, ks[1..]);
    }
  }

  /** Whatever the deaths and failures, later runs can complete, and when they do they leave the tables
      and the version of one uninterrupted run. */
  ghost predicate AlwaysConverges(n: nat, s: Point) {
    forall ks: seq<nat> ::
      && Recovers(n, Runs(n, ks, s))
      && forall k: nat | Run(n, k, Runs(n, ks, s)).left == [] :: Run(n, k, Runs(n, ks, s)).s == Whole(n, s).s
  }

  lemma SafeConverges(n: nat, s: Point)
    requires n <= 10 && Goal(n, s).Some? && Idle(n, s) && (n <= RESET || RESET <= Start(n, s.version))
    ensures AlwaysConverges(n, s)
  {
    hide Goal, Idle, Start, Run, Runs, Whole, Recovers, NoTrap, NoLoss, RESET;
    forall ks: seq<nat>
      ensures Recovers(n, Runs(n, ks, s))
      ensures forall k: nat | Run(n, k, Runs(n, ks, s)).left == [] :: Run(n, k, Runs(n, ks, s)).s == Whole(n, s).s
    {
      SafeSchedule(n, s, ks);
      RecoversExactly(n, s, ks);
      forall k: nat | Run(n, k, Runs(n, ks, s)).left == [] ensures Run(n, k, Runs(n, ks, s)).s == Whole(n, s).s {
        StepsConverge(n, s, ks, k);
      }
    }
  }

  /** After a run of k steps later runs can complete, and never with the tables of one uninterrupted
      run. */
  ghost predicate LosesForGood(n: nat, s: Point, k: nat) {
    && Recovers(n, Run(n, k, s).s)
    && forall ks: seq<nat>, k': nat | Run(n, k', Runs(n, ks, Run(n, k, s).s)).left == [] ::
         Run(n, k', Runs(n, ks, Run(n, k, s).s)).s.tables != Whole(n, s).s.tables
  }

  /** Where 0.0.15 is not idle, some death before its updates loses them for good. */
  lemma SomeLoss(n: nat, s: Point) returns (k: nat)
    requires n <= 10 && Goal(n, s).Some? && !Idle(n, s)
    ensures LosesForGood(n, s, k)
  {
    hide *;
    if !(Start(n, s.version) <= FIX < n) { IdleBeyond(n, s); }
    FixScript();
    k := Reaches(n, s, FIX, 0);
    StopsBefore(n, k, s, FIX, 0);
    var d2 := ReachesFix(n, s);
    IdleIs(n, s, d2);
    assert Between(Start(n, s.version), FIX) + Script(FIX)[..0] == Between(Start(n, s.version), FIX);
    LossyIs(Run(n, k, s), 0);
    assert Script(FIX)[0..] == Script(FIX);
    NotTrapped(n, k, s);
    KeepsReachable(n, k, s);
    GoalRecovers(n, Run(n, k, s).s);
    LossStays(n, s, k);
  }

  lemma LossStays(n: nat, s: Point, k: nat)
    requires n <= 10 && Goal(n, s).Some? && Lossy(Run(n, k, s)) && Recovers(n, Run(n, k, s).s)
    ensures LosesForGood(n, s, k)
  {
    WholeRuns(n, s);
    hide Goal, Run, Runs, Lossy, Whole, Recovers;
    forall ks: seq<nat>, k': nat | Run(n, k', Runs(n, ks, Run(n, k, s).s)).left == []
      ensures Run(n, k', Runs(n, ks, Run(n, k, s).s)).s.tables != Whole(n, s).s.tables
    {
      LossHolds(n, k, s, ks, k');
    }
  }

  lemma NotTrapped(n: nat, k: nat, s: Point)
    requires NextIs(Run(n, k, s).left, FIX, 0)
    ensures !Trapped(Start(n, s.version), Run(n, k, s).left)
  {
    FixIs();
    ResetLength();
    hide Run, Script, Start, RESET, FIX;
  }

  lemma ConvergesAt(n: nat, s: Point, ks: seq<nat>, k: nat)
    requires AlwaysConverges(n, s) && Run(n, k, Runs(n, ks, s)).left == []
    ensures Run(n, k, Runs(n, ks, s)).s == Whole(n, s).s
  {
    hide Run, Runs, Whole, Recovers;
  }

  lemma LossAgain(n: nat, s: Point, k: nat) returns (ks: seq<nat>, k': nat)
    requires LosesForGood(n, s, k)
    ensures Run(n, k', Runs(n, ks, Run(n, k, s).s)).left == []
    ensures Run(n, k', Runs(n, ks, Run(n, k, s).s)).s.tables != Whole(n, s).s.tables
  {
    hide Run, Runs, Whole;
    ks, k' :| Run(n, k', Runs(n, ks, Run(n, k, s).s)).left == [];
  }

  lemma LossShows(n: nat, s: Point, k: nat)
    requires LosesForGood(n, s, k)
    ensures !AlwaysConverges(n, s)
  {
    hide *;
    OneRun(n, k, s);
    var ks, k' := LossAgain(n, s, k);
    RunsConcat(n, [k], ks, s);
    if AlwaysConverges(n, s) { ConvergesAt(n, s, [k] + ks, k'); }
  }

  lemma OneRun(n: nat, k: nat, s: Point)
    ensures Runs(n, [k], s) == Run(n, k, s).s
  {
    hide Run;
    assert [k][1..] == [];
    NoRuns(n, Run(n, k, s).s);
  }

  lemma TrapShows(n: nat, s: Point, k: nat)
    requires !Recovers(n, Run(n, k, s).s)
    ensures !AlwaysConverges(n, s)
  {
    OneRun(n, k, s);
    hide Run, Runs, Whole, Recovers;
  }

  // ---- The same, read off the database before the call ----

  /** The pending scripts do not go from before 0.0.13 to beyond it, and where they go through 0.0.15
      without 0.0.13 every row of the fields is settled. */
  ghost predicate Safe(n: nat, s: Point) {
    var q := Start(n, s.version);
    && (q < RESET ==> n <= RESET)
    && (RESET < q <= FIX < n ==>
          SchemaFields in s.tables
          && forall k | k in s.tables[SchemaFields].rows :: Settled(s.tables[SchemaFields].rows[k], 0))
  }

  /** Between 0.0.13 and 0.0.15 nothing touches the fields. */
  lemma BeforeFix(q: nat, d: Db, d2: Db)
    requires RESET < q <= FIX && ExecAll(Between(q, FIX), d) == Some(d2)
    ensures Get(d2, SchemaFields) == Get(d, SchemaFields)
  {
    hide *;
    BetweenNone(FIX);
    TableOf14();
    ScriptNames();
    FixIs();
    if q < FIX {
      BetweenOne(q);
      assert Between(q, FIX) == SCRIPT_14;
    }
    assert forall x | x in Between(q, FIX) :: x.table != SchemaFields;
    Untouched(SchemaFields, Between(q, FIX), Get(d, SchemaFields));
    TablewiseAt(Between(q, FIX), d, SchemaFields);
  }

  /** 0.0.13 leaves the fields empty. */
  lemma AfterReset(d: Db, d2: Db)
    requires ExecAll(Between(RESET, FIX), d) == Some(d2)
    ensures SchemaFields in d2 && d2[SchemaFields].rows == map[]
  {
    hide *;
    ScriptNames();
    FixIs();
    BetweenOne(RESET);
    BetweenConcat(RESET, RESET + 1, FIX);
    ExecConcat(Script(RESET), Between(RESET + 1, FIX), d);
    var d1 := ExecAll(SCRIPT_13, d).value;
    FieldsReset(d, d1);
    BeforeFix(RESET + 1, d1, d2);
    SameTable(d1, d2, SchemaFields);
  }

  lemma SameTable(d: Db, d': Db, t: TableName)
    requires Get(d, t) == Get(d', t)
    ensures t in d <==> t in d'
    ensures t in d ==> d'[t] == d[t]
  {
  }

  lemma FieldsReset(d: Db, d1: Db)
    requires ExecAll(SCRIPT_13, d) == Some(d1)
    ensures SchemaFields in d1 && d1[SchemaFields].rows == map[]
  {
    Resets(SchemaFields, Get(d, SchemaFields));
    hide SCRIPT_13, DEFS_13, DefOf, On;
    TablewiseAt(SCRIPT_13, d, SchemaFields);
  }

  lemma FixNeeds(d2: Db)
    requires ExecAll(Script(FIX), d2).Some?
    ensures SchemaFields in d2
    ensures ExecAll(Script(FIX), d2) == Some(d2) <==>
      forall k | k in d2[SchemaFields].rows :: Settled(d2[SchemaFields].rows[k], 0)
  {
    hide *;
    FixScript();
    assert Script(FIX)[0..] == Script(FIX);
    FixSettled(0, d2);
  }

  lemma FixSucceeds(n: nat, s: Point, d2: Db)
    requires Goal(n, s).Some? && Start(n, s.version) <= FIX < n
    requires ExecAll(Between(Start(n, s.version), FIX), s.tables) == Some(d2)
    ensures ExecAll(Script(FIX), d2).Some?
  {
    hide *;
    var q := Start(n, s.version);
    GoalIs(n, s);
    WholeFix(n, q);
    ExecConcat(Between(q, FIX), Script(FIX) + Between(FIX + 1, n), s.tables);
    ExecConcat(Script(FIX), Between(FIX + 1, n), d2);
  }

  lemma SafeIdle(n: nat, s: Point)
    requires n <= 10 && Goal(n, s).Some? && RESET <= Start(n, s.version)
    ensures Safe(n, s) <==> Idle(n, s)
  {
    var q := Start(n, s.version);
    if q <= FIX < n {
      hide Goal, Start, Between, Script, ExecAll, Settled, RESET, FIX;
      var d2 := ReachesFix(n, s);
      IdleIs(n, s, d2);
      FixSucceeds(n, s, d2);
      FixNeeds(d2);
      if q == RESET {
        AfterReset(s.tables, d2);
      } else {
        BeforeFix(q, s.tables, d2);
        SameTable(d2, s.tables, SchemaFields);
      }
    } else {
      IdleBeyond(n, s);
    }
  }

  lemma SafeStart(n: nat, s: Point)
    requires RESET <= Start(n, s.version) || n <= RESET
    ensures n <= RESET && Start(n, s.version) < RESET ==> Safe(n, s) && Idle(n, s)
  {
    assert RESET < FIX;
    hide Start, RESET, FIX;
  }

  lemma SafeNeeds(n: nat, s: Point)
    requires Safe(n, s)
    ensures n <= RESET || RESET <= Start(n, s.version)
  {
    hide Start, RESET, FIX;
  }

  /** No schedule of deaths and failures does harm exactly when the database and the target are safe. */
  lemma ConvergesExactly(n: nat, s: Point)
    requires n <= 10 && Goal(n, s).Some?
    ensures AlwaysConverges(n, s) <==> Safe(n, s)
  {
    hide *;
    if Start(n, s.version) < RESET < n {
      if Safe(n, s) { SafeNeeds(n, s); }
      var k := SomeTrap(n, s);
      TrapShows(n, s, k);
    } else {
      SafeStart(n, s);
      if RESET <= Start(n, s.version) { SafeIdle(n, s); }
      if Idle(n, s) {
        SafeConverges(n, s);
      } else {
        var k := SomeLoss(n, s);
        LossShows(n, s, k);
      }
    }
  }

  // ---- A database that a death harms ----

  lemma Block15()
    ensures |SCRIPTS| == 10 && Flatten(SCRIPTS[6..9]) == SCRIPT_15 + (SCRIPT_16 + SCRIPT_17)
  {
    hide SCRIPT_9, SCRIPT_10, SCRIPT_11, SCRIPT_12, SCRIPT_13, SCRIPT_14, SCRIPT_15, SCRIPT_16, SCRIPT_17;
    hide SCRIPT_18, Flatten;
    assert SCRIPTS[6..9] == [SCRIPT_15, SCRIPT_16] + [SCRIPT_17];
    FlattenConcat([SCRIPT_15, SCRIPT_16], [SCRIPT_17]);
    FlattenConcat([SCRIPT_15], [SCRIPT_16]);
    assert [SCRIPT_15, SCRIPT_16] == [SCRIPT_15] + [SCRIPT_16];
    Flatten1(SCRIPT_15);
    Flatten1(SCRIPT_16);
    Flatten1(SCRIPT_17);
    assert (SCRIPT_15 + SCRIPT_16) + SCRIPT_17 == SCRIPT_15 + (SCRIPT_16 + SCRIPT_17);
  }

  lemma Checks15To17()
    ensures Checks(SCRIPT_15 + (SCRIPT_16 + SCRIPT_17), ShapesOf(DEFS_13))
  {
    hide *;
    Checks15();
    Checks16();
    Checks17();
    ChecksConcat(SCRIPT_15, SCRIPT_16 + SCRIPT_17, ShapesOf(DEFS_13));
    ChecksConcat(SCRIPT_16, SCRIPT_17, ShapesOf(DEFS_13));
  }

  /** From 0.0.14 on, the scripts succeed on tables of the shapes that 0.0.13 declares, with roles. */
  lemma DeclaredGoal(d: Db)
    requires Conforms(d, ShapesOf(DEFS_13)) && RolesReady(d)
    ensures Start(10, Version(5)) == 6 && Goal(10, Point(d, Version(5))).Some?
  {
    hide *;
    StartAfter(5, 10);
    GoalIs(10, Point(d, Version(5)));
    BetweenIs(6, 10);
    Block15();
    Checks15To17();
    ChecksRuns(Flatten(SCRIPTS[6..9]), ShapesOf(DEFS_13), d);
    Consecutive(6, 9, 10, d);
    var d3 := ExecAll(Flatten(SCRIPTS[6..9]), d).value;
    OneScript(9, d3);
    ScriptNames();
    LastScript();
    LastRuns(d3);
    RolesKept(6, 9, d);
  }

  lemma LastScript()
    ensures |SCRIPTS| == 10 && SCRIPTS[9] == SCRIPT_18
  {
    hide SCRIPT_9, SCRIPT_10, SCRIPT_11, SCRIPT_12, SCRIPT_13, SCRIPT_14, SCRIPT_15, SCRIPT_16, SCRIPT_17;
    hide SCRIPT_18;
  }

  /** A field whose dependency is not the one 0.0.15 gives it. */
  const FIELD: Row := map[
    "type_name" := Str("Book"), "name" := Str("title"), "hugr_type" := Str("submodule"),
    "dependency_catalog" := Str("core")]

  const ROLES: Table := Table([Col("name"), Col("description"), Flag("disabled")], ["name"], map[])

  const ADD_FIELD := Insert(SchemaFields, FIELD)

  lemma FieldFits()
    ensures Fits(ADD_FIELD, ShapesOf(DEFS_13)) && After(ADD_FIELD, ShapesOf(DEFS_13)) == ShapesOf(DEFS_13)
  {
    ShapesAre(DEFS_13, SchemaFields);
    hide DEFS_13, DefOf, ShapesOf, Names;
    ResetNames();
    DefinedTables();
    FieldsColumns();
    assert FIELD.Keys == {"type_name", "name", "hugr_type", "dependency_catalog"};
  }

  ghost predicate AllWellFormed(d: Db) { forall t | t in d :: WellFormed(d[t]) }

  lemma KeyNamed(i: nat)
    requires i < 12
    ensures |DEFS_13| == 12 && forall c | c in DEFS_13[i].key :: c in Names(DEFS_13[i].columns)
  {
    hide Names;
    var columns := DEFS_13[i].columns;
    NameAt(columns, 0);
    NameAt(columns, 1);
    if |columns| > 2 { NameAt(columns, 2); }
  }

  lemma {:induction false} DefIndex(t: TableName, defs: seq<Def>) returns (i: nat)
    requires DefOf(t, defs).Some?
    ensures i < |defs| && defs[i] == DefOf(t, defs).value
  {
    if defs[0].name == t { i := 0; } else { i := DefIndex(t, defs[1..]); i := i + 1; }
  }

  lemma BlankWellFormed(d: Def)
    requires forall c | c in d.key :: c in Names(d.columns)
    ensures WellFormed(Blank(d))
  {
    hide Names;
  }

  lemma SettingsWellFormed()
    ensures DefOf(SchemaSettings, DEFS_13).Some? && WellFormed(ResetTable(SchemaSettings))
  {
    DefinedTables();
    hide DEFS_13, DefOf;
    var columns := SETTINGS_DEF.columns;
    assert columns[1..] == [Col("value")] && columns[1..][1..] == [];
    assert Names(columns) == {"key"} + ({"value"} + {});
    var row := map["key" := Str("schema_version"), "value" := Str("\"0\"")];
    assert ["key"][1..] == [];
    assert KeyOf(["key"], row) == [Str("schema_version")];
  }

  lemma ResetWellFormed(t: TableName)
    requires DefOf(t, DEFS_13).Some?
    ensures WellFormed(ResetTable(t))
  {
    if t == SchemaSettings {
      SettingsWellFormed();
    } else {
      var i := DefIndex(t, DEFS_13);
      KeyNamed(if i < 12 then i else 0);
      hide DEFS_13, DefOf, WellFormed, Names;
      BlankWellFormed(DEFS_13[i]);
    }
  }

  lemma RolesWellFormed()
    ensures AllWellFormed(map[Roles := ROLES]) && RolesReady(map[Roles := ROLES])
  {
    hide Names;
    NameAt(ROLES.columns, 0);
  }

  /** 0.0.13 on well-formed tables. */
  lemma ResetLeaves(d: Db, d1: Db)
    requires AllWellFormed(d) && ExecAll(SCRIPT_13, d) == Some(d1)
    ensures AllWellFormed(d1) && Get(d1, Roles) == Get(d, Roles)
  {
    hide SCRIPT_13, DEFS_13, DefOf, WellFormed, ResetTable, On;
    assert !IsReset(Roles);
    hide IsReset;
    Resets(Roles, Get(d, Roles));
    TablewiseAt(SCRIPT_13, d, Roles);
    forall t | t in d1 ensures WellFormed(d1[t]) {
      Resets(t, Get(d, t));
      TablewiseAt(SCRIPT_13, d, t);
      if IsReset(t) { ResetWellFormed(t); }
    }
  }

  lemma AddsField(d: Db, d1: Db)
    requires SchemaFields in d && Exec(ADD_FIELD, d) == Some(d1) && AllWellFormed(d)
    requires d[SchemaFields].rows == map[]
    ensures AllWellFormed(d1) && Get(d1, Roles) == Get(d, Roles)
    ensures SchemaFields in d1 && exists k :: k in d1[SchemaFields].rows && !Settled(d1[SchemaFields].rows[k], 0)
  {
    var t := d[SchemaFields];
    hide Names, Defaults, KeyOf, WellFormed;
    ActKeepsWellFormed(ADD_FIELD, t);
    var k := KeyOf(t.key, FIELD);
    assert d1[SchemaFields].rows[k] == Defaults(t.columns) + FIELD;
    FieldUnsettled(Defaults(t.columns));
    assert k in d1[SchemaFields].rows;
  }

  lemma FieldUnsettled(row: Row)
    ensures !Settled(row + FIELD, 0)
  {
    var r := row + FIELD;
    assert Cell(r, "hugr_type") == Str("submodule") && r["dependency_catalog"] == Str("core");
  }

  /** A database at 0.0.14 with well-formed tables, as 0.0.13 makes them and with one field added, that
      migrates to 0.0.18, and that a death harms. */
  lemma SomeHarm() returns (d: Db, k: nat)
    ensures AllWellFormed(d) && Goal(10, Point(d, Version(5))).Some?
    ensures LosesForGood(10, Point(d, Version(5)), k)
  {
    hide *;
    RolesWellFormed();
    var d0: Db := map[Roles := ROLES];
    ResetRuns(d0);
    var d1 := ExecAll(SCRIPT_13, d0).value;
    ResetLeaves(d0, d1);
    FieldsReset(d0, d1);
    FieldFits();
    FitsRuns(ADD_FIELD, ShapesOf(DEFS_13), d1);
    d := Exec(ADD_FIELD, d1).value;
    AddsField(d1, d);
    SameRoles(d0, d);
    DeclaredGoal(d);
    Unsafe(d);
    k := SomeLoss(10, Point(d, Version(5)));
  }

  lemma SameRoles(d: Db, d': Db)
    requires Get(d, Roles) == Get(d', Roles)
    ensures RolesReady(d) <==> RolesReady(d')
  {
    hide Names;
  }

  lemma Unsafe(d: Db)
    requires Start(10, Version(5)) == 6 && Goal(10, Point(d, Version(5))).Some?
    requires SchemaFields in d && exists k :: k in d[SchemaFields].rows && !Settled(d[SchemaFields].rows[k], 0)
    ensures !Idle(10, Point(d, Version(5)))
  {
    ResetLength();
    SafeIdle(10, Point(d, Version(5)));
    hide Start, Goal, Idle, Settled, RESET, FIX, Version;
  }
}
