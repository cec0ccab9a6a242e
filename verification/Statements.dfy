/** The migration run with the shipped scripts, one statement at a time: the process may die, or a
    statement may fail, between any two statements of a script, and what was executed stays. */
module Statements {
  import opened Strings
  import opened Versions
  import opened Sql
  import opened Replay
  import opened Scripts
  import opened Completion
  import opened Shipped

  /** The script that writes its version first. */
  const FIX: nat := 6

  function Script(i: nat): seq<Stmt> { if i < |SCRIPTS| then SCRIPTS[i] else [] }

  function Version(i: nat): string { if i < |VERSIONS| then VERSIONS[i] else "" }

  /** The scripts from i up to j, one after the other. */
  function Between(i: nat, j: nat): seq<Stmt>
    decreases j - i
  {
    if i >= j then [] else Script(i) + Between(i + 1, j)
  }

  /** Statement `at` of a script, or a write of the version row by a script or by the tool. */
  datatype Step = Change(script: nat, at: nat) | Write(v: string)

  /** The database: its tables and its version row. */
  datatype Point = Point(tables: Db, version: string)

  function Changes(i: nat, m: nat): seq<Step>
    decreases |Script(i)| - m
  {
    if m >= |Script(i)| then [] else [Change(i, m)] + Changes(i, m + 1)
  }

  /** 0.0.9 and 0.0.10 do not write their version, 0.0.15 writes it first, the others last. */
  function StepsOf(i: nat): seq<Step> {
    if i < 2 then Changes(i, 0)
    else if i == FIX then [Write(Version(i))] + Changes(i, 0)
    else Changes(i, 0) + [Write(Version(i))]
  }

  /** What a run sends from script i on when its local version variable holds `local`. */
  function PlanFrom(i: nat, n: nat, local: string): seq<Step>
    decreases n - i
  {
    if i >= n then [Write(local)]
    else StepsOf(i) + ((if local != Version(i) then [Write(local)] else []) + PlanFrom(i + 1, n, Version(i)))
  }

  function Do(step: Step, s: Point): Option<Point> {
    match step
    case Write(v) => Some(s.(version := v))
    case Change(i, m) =>
      if m >= |Script(i)| then None else
      match Exec(Script(i)[m], s.tables)
      case None => None
      case Some(t) => Some(s.(tables := t))
  }

  /** Where a run stopped, and what it had left to do; nothing when it completed. */
  datatype Stop = Stop(s: Point, left: seq<Step>)

  /** At most k steps; a failing one ends the run too. */
  function RunSteps(steps: seq<Step>, k: nat, s: Point): Stop
    decreases k
  {
    if steps == [] || k == 0 then Stop(s, steps) else
    match Do(steps[0], s)
    case None => Stop(s, steps)
    case Some(s') => RunSteps(steps[1..], k - 1, s')
  }

  /** The first script from i on that is above a version. */
  function First(v: string, i: nat, n: nat): (r: nat)
    ensures i <= n ==> i <= r <= n
    decreases n - i
  {
    if i >= n || Compare(v, Version(i)) < 0 then i else First(v, i + 1, n)
  }

  function Start(n: nat, v: string): (q: nat)
    ensures q <= n
  {
    First(v, 0, n)
  }

  function Run(n: nat, k: nat, s: Point): Stop {
    RunSteps(PlanFrom(Start(n, s.version), n, s.version), k, s)
  }

  function Whole(n: nat, s: Point): Stop {
    Run(n, |PlanFrom(Start(n, s.version), n, s.version)|, s)
  }

  function Runs(n: nat, ks: seq<nat>, s: Point): Point
    decreases |ks|
  {
    if ks == [] then s else Runs(n, ks[1..], Run(n, ks[0], s).s)
  }

  // ---- The run in place ----

  class Connection {
    var tables: Db
    var version: string

    ghost function View(): Point
      reads this
    {
      Point(tables, version)
    }

    method Perform(step: Step) returns (ok: bool)
      modifies this
      ensures ok == Do(step, old(View())).Some?
      ensures View() == if ok then Do(step, old(View())).value else old(View())
    {
      match step
      case Write(v) =>
        version := v;
        return true;
      case Change(i, m) =>
        if m >= |Script(i)| { return false; }
        var t := Exec(Script(i)[m], tables);
        if t.None? { return false; }
        tables := t.value;
        return true;
    }
  }

  method RunAll(db: Connection, plan: seq<Step>, k: nat) returns (left: seq<Step>)
    modifies db
    ensures Stop(db.View(), left) == RunSteps(plan, k, old(db.View()))
  {
    left := plan;
    var budget := k;
    while left != [] && budget > 0
      invariant RunSteps(plan, k, old(db.View())) == RunSteps(left, budget, db.View())
    {
      var ok := db.Perform(left[0]);
      if !ok { return; }
      left, budget := left[1..], budget - 1;
    }
  }

  // ---- Versions and starts ----

  lemma VersionOrder(i: nat, j: nat)
    requires i < j < 10
    ensures Compare(Version(i), Version(j)) < 0
  {
    hide Compare;
    VersionsCount();
    ShippedOrder(i, j);
  }

  lemma {:induction false} FirstFrom(v: string, i: nat, n: nat, r: nat)
    requires i <= r <= n && (forall j: nat | i <= j < r :: Compare(v, Version(j)) >= 0)
    requires r < n ==> Compare(v, Version(r)) < 0
    ensures First(v, i, n) == r
    decreases r - i
  {
    hide Compare, Version;
    if i < r { FirstFrom(v, i + 1, n, r); }
  }

  lemma StartAfter(j: nat, n: nat)
    requires j < n <= 10
    ensures Start(n, Version(j)) == j + 1
  {
    hide Compare, Version;
    forall i: nat | i <= j ensures Compare(Version(j), Version(i)) >= 0 {
      if i < j { VersionOrder(i, j); }
      CompareTotalPreorder(Version(j), Version(i), Version(j));
    }
    if j + 1 < n { VersionOrder(j, j + 1); }
    FirstFrom(Version(j), 0, n, j + 1);
  }

  lemma {:induction false} FirstFacts(v: string, i: nat, n: nat)
    requires i <= n
    ensures First(v, i, n) < n ==> Compare(v, Version(First(v, i, n))) < 0
    decreases n - i
  {
    hide Compare, Version;
    if i < n && Compare(v, Version(i)) >= 0 { FirstFacts(v, i + 1, n); }
  }

  /** The local variable before script e, in a run that began at script q with v0 stored. */
  function Local(q: nat, e: nat, v0: string): string { if e <= q then v0 else Version(e - 1) }

  /** The stored version before script e. */
  function Stored(q: nat, e: nat, v0: string): string { if e <= q + 1 then v0 else Version(e - 2) }

  lemma LocalDiffers(q: nat, e: nat, n: nat, v0: string)
    requires q == Start(n, v0) && q <= e < n <= 10
    ensures Local(q, e, v0) != Version(e)
  {
    hide Compare, Version, Start;
    CompareTotalPreorder(Version(e), Version(e), Version(e));
    if e == q { StartBelow(n, v0); } else { VersionOrder(e - 1, e); }
  }

  lemma StoredDiffers(q: nat, e: nat, n: nat, v0: string)
    requires q == Start(n, v0) && q <= e < n <= 10
    ensures Stored(q, e, v0) != Version(e)
  {
    hide Compare, Version, Start;
    CompareTotalPreorder(Version(e), Version(e), Version(e));
    if e >= q + 2 {
      VersionOrder(e - 2, e);
    } else {
      StartBelow(n, v0);
      if e > q { VersionOrder(q, e); }
      CompareTotalPreorder(v0, Version(q), Version(e));
    }
  }

  lemma StartBelow(n: nat, v: string)
    requires Start(n, v) < n
    ensures Compare(v, Version(Start(n, v))) < 0
  {
    FirstFacts(v, 0, n);
  }

  /** A run that stops in script e begins again at the script before it, or at e if it began there. */
  lemma StartStored(q: nat, e: nat, n: nat, v0: string)
    requires q == Start(n, v0) && q <= e <= n <= 10
    ensures Start(n, Stored(q, e, v0)) == if e == q then q else e - 1
  {
    hide Compare, Version, Start;
    if e >= q + 2 { StartAfter(e - 2, n); }
  }

  // ---- One run ----

  lemma OneStep(step: Step, rest: seq<Step>, k: nat, s: Point)
    ensures RunSteps([step] + rest, k, s) ==
      if k == 0 || Do(step, s).None? then Stop(s, [step] + rest) else RunSteps(rest, k - 1, Do(step, s).value)
  {
    assert ([step] + rest)[1..] == rest;
  }

  /** The next step of a stopped run is statement m of script e. */
  ghost predicate NextIs(left: seq<Step>, e: nat, m: nat) { left != [] && left[0] == Change(e, m) }

  /** From statement m of script i: the run stops in the script after m' statements, or gets through. */
  lemma {:induction false} ScriptRun(i: nat, m: nat, rest: seq<Step>, k: nat, s: Point) returns (m': nat)
    requires m <= |Script(i)|
    ensures m <= m' <= |Script(i)|
    ensures ExecAll(Script(i)[m..m'], s.tables).Some?
    ensures
      var t := ExecAll(Script(i)[m..m'], s.tables).value;
      var out := RunSteps(Changes(i, m) + rest, k, s);
      if m' < |Script(i)| then
        && out.s == Point(t, s.version) && NextIs(out.left, i, m')
        && (k >= |Changes(i, m)| ==> Exec(Script(i)[m'], t).None?)
      else k >= |Changes(i, m)| && out == RunSteps(rest, k - |Changes(i, m)|, Point(t, s.version))
    decreases |Script(i)| - m
  {
    hide Script, Exec;
    if m == |Script(i)| {
      m' := m;
      assert Changes(i, m) + rest == rest;
      assert Script(i)[m..m] == [];
    } else {
      var tail := Changes(i, m + 1) + rest;
      assert Changes(i, m) + rest == [Change(i, m)] + tail;
      OneStep(Change(i, m), tail, k, s);
      assert Script(i)[m..m] == [];
      if k == 0 || Exec(Script(i)[m], s.tables).None? {
        m' := m;
      } else {
        var t := Exec(Script(i)[m], s.tables).value;
        m' := ScriptRun(i, m + 1, rest, k - 1, Point(t, s.version));
        assert Script(i)[m..m'][1..] == Script(i)[m + 1..m'] && Script(i)[m..m'][0] == Script(i)[m];
      }
    }
  }

  /** Where a run that is before script e stops: in script e' after m of its statements, everything
      before executed. The stored version is the one it had before e', or e' has written its own at its
      end, or it is 0.0.15 and has written its own at its beginning, or the run is complete. */
  ghost predicate StopsAt(q: nat, e: nat, n: nat, v0: string, s: Point, out: Stop, e': nat, m: nat) {
    && e <= e' <= n && m <= |Script(e')| && (e' == n ==> m == 0)
    && ExecAll(Between(e, e') + Script(e')[..m], s.tables) == Some(out.s.tables)
    && (out.left == [] ==> e' == n && out.s.version == Local(q, n, v0))
    && (out.left != [] ==>
          || out.s.version == Stored(q, e', v0)
          || (e' < n && out.s.version == Version(e') && (m == |Script(e')| || e' == FIX)))
    && (e' < n && m < |Script(e')| && (m > 0 || (e' == FIX && out.s.version == Version(FIX))) ==>
          NextIs(out.left, e', m))
    && Told(out.left, e', m, n) && VersionTold(out, e')
  }

  /** A run that stops before a statement stops before statement m of script e. */
  ghost predicate Told(left: seq<Step>, e: nat, m: nat, n: nat) {
    left != [] && left[0].Change? ==> NextIs(left, e, m) && e < n && m < |Script(e)|
  }

  /** A run that stops before a statement of 0.0.15 has stored that version. */
  ghost predicate VersionTold(out: Stop, e: nat) {
    out.left != [] && out.left[0].Change? && e == FIX ==> out.s.version == Version(FIX)
  }

  /** When nothing fails and there are enough steps, the run completes. */
  ghost predicate Finishes(e: nat, n: nat, k: nat, steps: nat, s: Point, out: Stop) {
    k >= steps && ExecAll(Between(e, n), s.tables).Some? ==> out.left == []
  }

  lemma BetweenStep(e: nat, j: nat, ss: seq<Stmt>, d: Db, d1: Db)
    requires e < j && ExecAll(Script(e), d) == Some(d1)
    ensures ExecAll(Between(e, j) + ss, d) == ExecAll(Between(e + 1, j) + ss, d1)
    ensures ExecAll(Between(e, j), d) == ExecAll(Between(e + 1, j), d1)
  {
    hide Script, ExecAll;
    assert Between(e, j) + ss == Script(e) + (Between(e + 1, j) + ss);
    ExecConcat(Script(e), Between(e + 1, j) + ss, d);
    ExecConcat(Script(e), Between(e + 1, j), d);
  }

  /** The run stops in script e itself. */
  lemma StopsHere(q: nat, e: nat, n: nat, v0: string, s: Point, out: Stop, m: nat)
    requires e < n && m <= |Script(e)| && out.left != [] && Told(out.left, e, m, n) && VersionTold(out, e)
    requires ExecAll(Script(e)[..m], s.tables) == Some(out.s.tables)
    requires out.s.version == Stored(q, e, v0) || (out.s.version == Version(e) && (m == |Script(e)| || e == FIX))
    requires m < |Script(e)| && (m > 0 || (e == FIX && out.s.version == Version(FIX))) ==> NextIs(out.left, e, m)
    ensures StopsAt(q, e, n, v0, s, out, e, m)
  {
    assert Between(e, e) + Script(e)[..m] == Script(e)[..m];
  }

  /** The run gets through script e and stops later. */
  lemma StopsLater(q: nat, e: nat, n: nat, v0: string, s: Point, s1: Point, out: Stop, e': nat, m: nat)
    requires e < n && ExecAll(Script(e), s.tables) == Some(s1.tables)
    requires StopsAt(q, e + 1, n, v0, s1, out, e', m)
    ensures StopsAt(q, e, n, v0, s, out, e', m)
  {
    BetweenStep(e, e', Script(e')[..m], s.tables, s1.tables);
    hide Between, Script, Version, ExecAll, NextIs;
  }

  /** The tool's write after script e, and what follows. */
  lemma {:induction false} AfterScript(q: nat, e: nat, n: nat, v0: string, k: nat, s: Point, s1: Point)
    returns (e': nat, m: nat)
    requires q == Start(n, v0) && q <= e < n <= 10
    requires ExecAll(Script(e), s.tables) == Some(s1.tables)
    requires s1.version == Stored(q, e, v0) || s1.version == Version(e)
    ensures
      var steps := [Write(Local(q, e, v0))] + PlanFrom(e + 1, n, Version(e));
      var out := RunSteps(steps, k, s1);
      && StopsAt(q, e, n, v0, s, out, e', m)
      && Finishes(e, n, k, |steps|, s, out)
    decreases n - e, 0
  {
    hide Script, Version, Start, Stored, StopsAt, ExecAll, Compare, Between, Changes;
    var tail := PlanFrom(e + 1, n, Version(e));
    var steps := [Write(Local(q, e, v0))] + tail;
    OneStep(Write(Local(q, e, v0)), tail, k, s1);
    if k == 0 {
      e', m := e, |Script(e)|;
      assert Script(e)[..m] == Script(e);
      StopsHere(q, e, n, v0, s, RunSteps(steps, k, s1), m);
    } else {
      var s2 := s1.(version := Local(q, e, v0));
      LocalStored(q, e, v0);
      e', m := Process(q, e + 1, n, v0, k - 1, s2);
      StopsLater(q, e, n, v0, s, s2, RunSteps(steps, k, s1), e', m);
      BetweenStep(e, n, [], s.tables, s1.tables);
    }
  }

  lemma LocalStored(q: nat, e: nat, v0: string)
    requires q <= e
    ensures Local(q, e, v0) == Stored(q, e + 1, v0) && Local(q, e + 1, v0) == Version(e)
  {
  }

  /** One process from before script e. */
  lemma {:induction false} Process(q: nat, e: nat, n: nat, v0: string, k: nat, s: Point) returns (e': nat, m: nat)
    requires q == Start(n, v0) && q <= e <= n <= 10 && s.version == Stored(q, e, v0)
    ensures
      var out := RunSteps(PlanFrom(e, n, Local(q, e, v0)), k, s);
      && StopsAt(q, e, n, v0, s, out, e', m)
      && Finishes(e, n, k, |PlanFrom(e, n, Local(q, e, v0))|, s, out)
    decreases n - e, 3
  {
    if e == n {
      e', m := n, 0;
      AtEnd(q, n, v0, k, s);
    } else {
      LocalDiffers(q, e, n, v0);
      hide Script, Version, Start, Stored, Local, StopsAt, ExecAll, Compare, Between, Changes, Finishes;
      var rest := [Write(Local(q, e, v0))] + PlanFrom(e + 1, n, Version(e));
      assert PlanFrom(e, n, Local(q, e, v0)) == StepsOf(e) + rest;
      e', m := ThroughScript(q, e, n, v0, k, s);
    }
  }

  lemma AtEnd(q: nat, n: nat, v0: string, k: nat, s: Point)
    requires q == Start(n, v0) && q <= n <= 10 && s.version == Stored(q, n, v0)
    ensures
      var out := RunSteps(PlanFrom(n, n, Local(q, n, v0)), k, s);
      && StopsAt(q, n, n, v0, s, out, n, 0)
      && Finishes(n, n, k, |PlanFrom(n, n, Local(q, n, v0))|, s, out)
  {
    hide Start, Compare, Version, Script;
    var step := Write(Local(q, n, v0));
    assert PlanFrom(n, n, Local(q, n, v0)) == [step] + [];
    OneStep(step, [], k, s);
    assert Between(n, n) + Script(n)[..0] == [];
  }

  /** The statements of script e, its own write of the version, and what follows. */
  lemma {:induction false} ThroughScript(q: nat, e: nat, n: nat, v0: string, k: nat, s: Point)
    returns (e': nat, m: nat)
    requires q == Start(n, v0) && q <= e < n <= 10 && s.version == Stored(q, e, v0)
    ensures
      var steps := StepsOf(e) + ([Write(Local(q, e, v0))] + PlanFrom(e + 1, n, Version(e)));
      var out := RunSteps(steps, k, s);
      && StopsAt(q, e, n, v0, s, out, e', m)
      && Finishes(e, n, k, |steps|, s, out)
    decreases n - e, 2
  {
    hide *;
    var rest := [Write(Local(q, e, v0))] + PlanFrom(e + 1, n, Version(e));
    StepsAre(e, rest);
    if e < 2 {
      e', m := Body(q, e, n, v0, k, s, s, false);
    } else if e == FIX {
      var later := Changes(e, 0) + ([] + rest);
      WriteStep(Version(e), later, k, s);
      if k == 0 {
        e', m := e, 0;
        NothingDone(e, s);
        StoredDiffers(q, e, n, v0);
        StopsHere(q, e, n, v0, s, RunSteps(StepsOf(e) + rest, k, s), 0);
        NotEnough(e, n, |StepsOf(e) + rest|, s, RunSteps(StepsOf(e) + rest, k, s));
      } else {
        e', m := Body(q, e, n, v0, k - 1, s, s.(version := Version(e)), false);
        OneMore(e, n, k, |later|, s, RunSteps(StepsOf(e) + rest, k, s));
      }
    } else {
      e', m := Body(q, e, n, v0, k, s, s, true);
    }
  }

  lemma StepsAre(e: nat, rest: seq<Step>)
    ensures FIX == 6
    ensures e < 2 ==> StepsOf(e) + rest == Changes(e, 0) + ([] + rest)
    ensures e == FIX ==> StepsOf(e) + rest == [Write(Version(e))] + (Changes(e, 0) + ([] + rest))
    ensures e >= 2 && e != FIX ==> StepsOf(e) + rest == Changes(e, 0) + ([Write(Version(e))] + rest)
  {
    hide Changes, Version, Script;
    Associate(Changes(e, 0), [Write(Version(e))], rest);
    Associate([Write(Version(e))], Changes(e, 0), rest);
  }

  lemma Associate(xs: seq<Step>, ys: seq<Step>, zs: seq<Step>)
    ensures (xs + ys) + zs == xs + (ys + zs) && [] + zs == zs
  {
  }

  lemma WriteStep(v: string, rest: seq<Step>, k: nat, s: Point)
    ensures RunSteps([Write(v)] + rest, k, s) ==
      if k == 0 then Stop(s, [Write(v)] + rest) else RunSteps(rest, k - 1, s.(version := v))
  {
    hide Script;
    OneStep(Write(v), rest, k, s);
  }

  lemma NotEnough(e: nat, n: nat, steps: nat, s: Point, out: Stop)
    requires steps > 0
    ensures Finishes(e, n, 0, steps, s, out)
  {
    hide ExecAll, Between;
  }

  lemma OneMore(e: nat, n: nat, k: nat, steps: nat, s: Point, out: Stop)
    requires k > 0 && Finishes(e, n, k - 1, steps, s, out)
    ensures Finishes(e, n, k, steps + 1, s, out)
  {
    hide ExecAll, Between;
  }

  lemma NothingDone(e: nat, s: Point)
    ensures Script(e)[..0] == [] && ExecAll(Script(e)[..0], s.tables) == Some(s.tables)
  {
  }

  lemma FailsInside(e: nat, n: nat, m: nat, d: Db)
    requires e < n && m < |Script(e)| && ExecAll(Script(e)[..m], d).Some?
    requires Exec(Script(e)[m], ExecAll(Script(e)[..m], d).value).None?
    ensures ExecAll(Between(e, n), d).None?
  {
    hide Script, Exec;
    var ss := Script(e);
    var rest := [ss[m]] + (ss[m + 1..] + Between(e + 1, n));
    assert Between(e, n) == ss[..m] + rest by { assert ss == ss[..m] + ([ss[m]] + ss[m + 1..]); }
    ExecConcat(ss[..m], rest, d);
    assert rest[0] == ss[m];
  }

  /** The statements of script e, from a state whose version row may hold the script's version already;
      `own` says whether the script's own write follows. */
  lemma {:induction false} Body(q: nat, e: nat, n: nat, v0: string, k: nat, s: Point, sv: Point, own: bool)
    returns (e': nat, m: nat)
    requires q == Start(n, v0) && q <= e < n <= 10 && sv.tables == s.tables
    requires sv.version == if e == FIX then Version(e) else Stored(q, e, v0)
    ensures
      var rest := [Write(Local(q, e, v0))] + PlanFrom(e + 1, n, Version(e));
      var steps := Changes(e, 0) + ((if own then [Write(Version(e))] else []) + rest);
      var out := RunSteps(steps, k, sv);
      && StopsAt(q, e, n, v0, s, out, e', m)
      && Finishes(e, n, k, |steps|, s, out)
    decreases n - e, 1
  {
    hide Script, Version, Start, Stored, Local, StopsAt, ExecAll, Compare, Between, Changes, PlanFrom, Exec;
    var rest := [Write(Local(q, e, v0))] + PlanFrom(e + 1, n, Version(e));
    var later := (if own then [Write(Version(e))] else []) + rest;
    var out := RunSteps(Changes(e, 0) + later, k, sv);
    m := ScriptRun(e, 0, later, k, sv);
    e' := e;
    assert Script(e)[0..m] == Script(e)[..m];
    if m < |Script(e)| {
      StopsHere(q, e, n, v0, s, out, m);
      if k >= |Changes(e, 0)| { FailsInside(e, n, m, s.tables); }
    } else {
      assert Script(e)[..m] == Script(e);
      var s1, k1 := Point(ExecAll(Script(e), s.tables).value, sv.version), k - |Changes(e, 0)|;
      if !own {
        assert later == rest;
        e', m := AfterScript(q, e, n, v0, k1, s, s1);
      } else {
        OneStep(Write(Version(e)), rest, k1, s1);
        if k1 == 0 {
          StopsHere(q, e, n, v0, s, out, m);
        } else {
          e', m := AfterScript(q, e, n, v0, k1 - 1, s, s1.(version := Version(e)));
        }
      }
    }
  }

  // ---- Repeating a part of the scripts ----

  ghost predicate RepeatsAt(t: TableName, ss: seq<Stmt>) {
    forall slot | On(t, ss, slot).Some? :: On(t, ss, On(t, ss, slot).value) == On(t, ss, slot)
  }

  ghost predicate Repeats(ss: seq<Stmt>) {
    forall d | ExecAll(ss, d).Some? :: ExecAll(ss, ExecAll(ss, d).value) == ExecAll(ss, d)
  }

  lemma RepeatsEverywhere(ss: seq<Stmt>)
    requires forall t :: RepeatsAt(t, ss)
    ensures Repeats(ss)
  {
    hide On, ExecAll;
    forall d | ExecAll(ss, d).Some? ensures ExecAll(ss, ExecAll(ss, d).value) == ExecAll(ss, d) {
      forall t, slot | On(t, ss, slot).Some? ensures On(t, ss, On(t, ss, slot).value) == On(t, ss, slot) {
        assert RepeatsAt(t, ss);
      }
      RepeatsTablewise(ss, d);
    }
  }

  lemma KeptRepeatsAt(t: TableName, ss: seq<Stmt>)
    requires Kept(ss)
    ensures RepeatsAt(t, ss)
  {
    hide On;
    forall slot | On(t, ss, slot).Some? ensures On(t, ss, On(t, ss, slot).value) == On(t, ss, slot) {
      KeptRepeats(t, ss, slot);
    }
  }

  lemma KeptPrefix(xs: seq<Stmt>, ys: seq<Stmt>)
    requires Kept(xs + ys)
    ensures Kept(xs)
  {
    hide PairwiseKept, HeadKept, Repeatable;
    KeptConcat(xs, ys);
    assert forall x | x in xs :: x in xs + ys;
  }

  lemma ScriptNames()
    ensures Script(3) == SCRIPT_12 && Script(RESET) == SCRIPT_13 && Script(RESET + 1) == SCRIPT_14
    ensures |SCRIPTS| == 10 && (forall i | 0 <= i < 10 :: Script(i) == SCRIPTS[i]) && Script(10) == []
    ensures RESET == 4
  {
    hide SCRIPT_9, SCRIPT_10, SCRIPT_11, SCRIPT_12, SCRIPT_13, SCRIPT_14, SCRIPT_15, SCRIPT_16, SCRIPT_17, SCRIPT_18;
  }

  lemma TwoScripts(e: nat)
    requires 1 <= e < 10 && |SCRIPTS| == 10
    ensures Flatten(SCRIPTS[e - 1..e + 1]) == SCRIPTS[e - 1] + SCRIPTS[e]
  {
    hide SCRIPTS;
    assert SCRIPTS[e - 1..e + 1] == [SCRIPTS[e - 1]] + [SCRIPTS[e]];
    FlattenConcat([SCRIPTS[e - 1]], [SCRIPTS[e]]);
    Flatten1(SCRIPTS[e - 1]);
    Flatten1(SCRIPTS[e]);
  }

  /** Away from the reset, one script and a part of the next do not spoil each other. */
  lemma KeptPair(e: nat, m: nat)
    requires 1 <= e < 10 && e != RESET && e != RESET + 1 && m <= |Script(e)|
    ensures Kept(Script(e - 1) + Script(e)[..m])
  {
    hide *;
    ScriptNames();
    TwoScripts(e);
    if e < RESET { KeptBefore(e - 1, e + 1); } else { KeptAfter(e - 1, e + 1); }
    var xs, ys := Script(e - 1), Script(e);
    assert xs + ys == (xs + ys[..m]) + ys[m..];
    KeptPrefix(xs + ys[..m], ys[m..]);
  }

  lemma KeptOne(e: nat, m: nat)
    requires e < 10 && e != RESET && m <= |Script(e)|
    ensures Kept(Script(e)[..m])
  {
    hide *;
    ScriptNames();
    assert SCRIPTS[e..e + 1] == [SCRIPTS[e]];
    Flatten1(SCRIPTS[e]);
    if e < RESET { KeptBefore(e, e + 1); } else { KeptAfter(e, e + 1); }
    assert Script(e) == Script(e)[..m] + Script(e)[m..];
    KeptPrefix(Script(e)[..m], Script(e)[m..]);
  }

  lemma AfterResetOn(t: TableName, ys: seq<Stmt>, slot: Option<Table>)
    ensures IsReset(t) <==> DefOf(t, DEFS_13).Some?
    ensures On(t, SCRIPT_13 + ys, slot) == On(t, ys, if IsReset(t) then Some(ResetTable(t)) else slot)
  {
    hide SCRIPT_13, IsReset, DEFS_13, DefOf, ResetTable, On;
    OnConcat(t, SCRIPT_13, ys, slot);
    Resets(t, slot);
  }

  /** 0.0.13 and a part of 0.0.14. */
  lemma AfterResetRepeats(t: TableName, m: nat)
    requires m <= |SCRIPT_14|
    ensures RepeatsAt(t, SCRIPT_13 + SCRIPT_14[..m])
  {
    ScriptNames();
    KeptOne(RESET + 1, m);
    hide SCRIPT_13, SCRIPT_14, SCRIPTS, Script, IsReset, DEFS_13, DefOf, ResetTable, On, Kept;
    var ys := SCRIPT_14[..m];
    KeptRepeatsAt(t, ys);
    forall slot | On(t, SCRIPT_13 + ys, slot).Some?
      ensures On(t, SCRIPT_13 + ys, On(t, SCRIPT_13 + ys, slot).value) == On(t, SCRIPT_13 + ys, slot)
    {
      AfterResetOn(t, ys, slot);
      AfterResetOn(t, ys, On(t, SCRIPT_13 + ys, slot).value);
    }
  }

  // ---- A part of the reset ----

  lemma {:induction false} DropsPart(names: seq<TableName>, m: nat)
    requires m <= |names|
    ensures |Drops(names)| == |names| && Drops(names)[..m] == Drops(names[..m])
  {
    if names != [] {
      if m == 0 {
        DropsPart(names[1..], 0);
      } else {
        DropsPart(names[1..], m - 1);
        assert names[..m][1..] == names[1..][..m - 1];
        assert Drops(names)[..m] == [DropTable(names[0])] + Drops(names[1..])[..m - 1];
      }
    }
  }

  lemma {:induction false} CreatesPart(defs: seq<Def>, m: nat)
    requires m <= |defs|
    ensures |Creates(defs, false)| == |defs| && Creates(defs, false)[..m] == Creates(defs[..m], false)
  {
    if defs != [] {
      var first := CreateTable(defs[0].name, defs[0].columns, defs[0].key, false);
      if m == 0 {
        CreatesPart(defs[1..], 0);
      } else {
        CreatesPart(defs[1..], m - 1);
        assert defs[..m][1..] == defs[1..][..m - 1];
        assert Creates(defs, false)[..m] == [first] + Creates(defs[1..], false)[..m - 1];
      }
    }
  }

  lemma ResetLengths()
    ensures |DROPPED| == 12 && |DEFS_13| == 12 && |SCRIPT_10| == 13
    ensures DROPPED[7] == SchemaFields && DROPPED[10] == SchemaSettings
    ensures DROPPED[..7] == [SchemaDataObjectQueries, SchemaDataObjects, SchemaModuleTypeCatalogs, SchemaModules,
                             SchemaCatalogDependencies, SchemaEnumValues, SchemaArguments]
  {
    DefNames();
    hide DEFS_13;
  }

  /** The statements of 0.0.13 after the drops. */
  function Rest13(): seq<Stmt> { Creates(DEFS_13, false) + (SCRIPT_10 + [SCHEMA_VERSION]) }

  lemma ResetParts()
    ensures SCRIPT_13 == Drops(DROPPED) + Rest13() && |Drops(DROPPED)| == 12 && |DROPPED| == 12 && |Rest13()| == 26
  {
    ResetLengths();
    DropsPart(DROPPED, 0);
    CreatesPart(DEFS_13, 0);
    hide DROPPED, DEFS_13, SCRIPT_10, SCHEMA_VERSION, Drops, Creates;
  }

  lemma ResetSplit(m: nat)
    requires m <= 38
    ensures |SCRIPT_13| == 38 && |Rest13()| == 26 && |DROPPED| == 12
    ensures m <= 12 ==> SCRIPT_13[..m] == Drops(DROPPED[..if m <= 12 then m else 12])
    ensures m >= 12 ==> SCRIPT_13[..m] == Drops(DROPPED) + Rest13()[..m - 12]
  {
    hide *;
    ResetParts();
    if m <= 12 {
      DropsPart(DROPPED, m);
      assert (Drops(DROPPED) + Rest13())[..m] == Drops(DROPPED)[..m];
    }
    if m >= 12 {
      assert (Drops(DROPPED) + Rest13())[..m] == Drops(DROPPED) + Rest13()[..m - 12];
    }
  }

  lemma OnDropsPart(t: TableName, m: nat, slot: Option<Table>)
    requires m <= 12
    ensures |SCRIPT_13| == 38 && |DROPPED| == 12
    ensures On(t, SCRIPT_13[..m], slot) == Some(if t in DROPPED[..m] then None else slot)
  {
    ResetSplit(m);
    hide DROPPED, SCRIPT_13, Drops, On;
    OnDrops(t, DROPPED[..m], slot);
  }

  lemma {:induction false} OnRestPart(t: TableName, m: nat, slot: Option<Table>)
    requires 12 <= m <= 38
    ensures |SCRIPT_13| == 38 && |Rest13()| == 26
    ensures !IsReset(t) ==> On(t, SCRIPT_13[..m], slot) == Some(slot)
    ensures IsReset(t) ==> On(t, Rest13()[..m - 12], None).Some?
    ensures IsReset(t) ==> On(t, SCRIPT_13[..m], slot) == On(t, Rest13()[..m - 12], None)
  {
    ResetSplit(m);
    assert IsReset(t) <==> t in DROPPED;
    hide DROPPED, SCRIPT_13, Drops, On, Rest13, IsReset;
    if IsReset(t) {
      OnDrops(t, DROPPED, slot);
      OnConcat(t, Drops(DROPPED), Rest13()[..m - 12], slot);
      ResetPrefixRuns(t, m, slot);
    } else {
      forall s | s in SCRIPT_13[..m] ensures s.table != t { ResetTouches(s); }
      Untouched(t, SCRIPT_13[..m], slot);
    }
  }

  lemma ResetPrefixRuns(t: TableName, m: nat, slot: Option<Table>)
    requires m <= |SCRIPT_13|
    ensures On(t, SCRIPT_13[..m], slot).Some?
  {
    Resets(t, slot);
    hide SCRIPT_13, On, IsReset, DEFS_13, ResetTable;
    assert SCRIPT_13 == SCRIPT_13[..m] + SCRIPT_13[m..];
    OnConcat(t, SCRIPT_13[..m], SCRIPT_13[m..], slot);
  }

  /** Any leading part of 0.0.13 repeats itself. */
  lemma {:induction false} ResetPartRepeats(t: TableName, m: nat)
    requires m <= 38
    ensures |SCRIPT_13| == 38 && RepeatsAt(t, SCRIPT_13[..m])
  {
    ResetSplit(m);
    hide SCRIPT_13, DROPPED, On, Rest13, IsReset, Drops;
    var ss := SCRIPT_13[..m];
    forall slot | On(t, ss, slot).Some? ensures On(t, ss, On(t, ss, slot).value) == On(t, ss, slot) {
      if m <= 12 {
        OnDropsPart(t, m, slot);
        OnDropsPart(t, m, On(t, ss, slot).value);
      } else {
        OnRestPart(t, m, slot);
        OnRestPart(t, m, On(t, ss, slot).value);
      }
    }
  }

  lemma Tables12()
    ensures forall s | s in SCRIPT_12 :: s.table in {SchemaCatalogs, SchemaFields, ClusterNodes, SchemaSettings}
  {
    VersionRowTable();
    hide SCHEMA_VERSION;
  }

  /** 0.0.12 succeeds on a table that 0.0.13 has created, with or without the version row. */
  lemma {:induction false} TwelveRuns(t: TableName, tb: Table)
    requires DefOf(t, DEFS_13).Some?
    requires tb == Blank(DefOf(t, DEFS_13).value) || tb == ResetTable(t)
    ensures On(t, SCRIPT_12, Some(tb)).Some?
  {
    Shapes();
    MetAdded();
    OnVersionRow(t);
    hide DEFS_13, DefOf, SCRIPT_12, SCHEMA_VERSION, Met, Structural, On, Fixed, SCRIPT_9, SCRIPT_10, SCRIPT_11;
    var xs := SCRIPT_12[..6];
    forall s | s in xs ensures Fixed(t, s, Some(tb)) { FixedStructural(t, s, tb); }
    FixedList(t, xs, Some(tb));
    OnConcat(t, xs, [SCHEMA_VERSION], Some(tb));
    FixedOne(t, SCHEMA_VERSION, Some(tb));
  }

  lemma FixedOne(t: TableName, s: Stmt, slot: Option<Table>)
    ensures Fixed(t, s, slot) ==> On(t, [s], slot) == Some(slot)
  {
    assert [s][1..] == [];
  }

  lemma IndexPart(t: TableName, k: nat)
    requires k <= |SCRIPT_10| && DefOf(t, DEFS_13).Some?
    ensures
      var slot := Some(Blank(DefOf(t, DEFS_13).value));
      On(t, SCRIPT_10[..k], slot) == Some(slot)
  {
    var tb := Blank(DefOf(t, DEFS_13).value);
    Shapes();
    Met10();
    hide SCRIPT_10, DEFS_13, DefOf, Fixed, Structural, Met, On;
    var part := SCRIPT_10[..k];
    forall s | s in part ensures Fixed(t, s, Some(tb)) {
      assert s in SCRIPT_10;
      FixedStructural(t, s, tb);
    }
    FixedList(t, part, Some(tb));
  }

  lemma RestParts(m: nat)
    requires 24 <= m <= 38
    ensures |Rest13()| == 26 && |SCRIPT_10| == 13
    ensures m < 38 ==> Rest13()[..m - 12] == Creates(DEFS_13, false) + SCRIPT_10[..if m < 38 then m - 24 else 0]
    ensures m == 38 ==> Rest13()[..m - 12] == Creates(DEFS_13, false) + (SCRIPT_10[..13] + [SCHEMA_VERSION])
  {
    ResetLengths();
    CreatesPart(DEFS_13, 0);
    hide DEFS_13, SCRIPT_10, SCHEMA_VERSION, Creates, DROPPED;
    assert SCRIPT_10[..13] == SCRIPT_10;
  }

  /** A created table, before the version row and after it. */
  lemma {:induction false} CreatedPart(t: TableName, m: nat)
    requires 24 <= m <= 38 && DefOf(t, DEFS_13).Some?
    ensures |Rest13()| == 26
    ensures
      var slot := On(t, Rest13()[..m - 12], None);
      slot == Some(Some(Blank(DefOf(t, DEFS_13).value))) || slot == Some(Some(ResetTable(t)))
  {
    RestParts(m);
    NamesDistinct();
    OnVersionRow(t);
    hide DEFS_13, DefOf, SCRIPT_10, SCHEMA_VERSION, On, Fixed, Creates, DistinctNames, Rest13, ResetTable;
    var creates, tb := Creates(DEFS_13, false), Blank(DefOf(t, DEFS_13).value);
    OnCreates(t, DEFS_13, None);
    if m < 38 {
      IndexPart(t, m - 24);
      OnConcat(t, creates, SCRIPT_10[..m - 24], None);
    } else {
      IndexPart(t, 13);
      OnConcat(t, creates, SCRIPT_10[..13] + [SCHEMA_VERSION], None);
      OnConcat(t, SCRIPT_10[..13], [SCHEMA_VERSION], Some(tb));
    }
  }

  lemma EarlyDropped(t: TableName, m: nat)
    requires m < 8
    ensures |DROPPED| == 12
    ensures t in DROPPED[..m] ==> t !in {SchemaCatalogs, SchemaFields, ClusterNodes, SchemaSettings}
  {
    ResetLengths();
    assert t in DROPPED[..m] ==> t in DROPPED[..7];
    hide DROPPED;
  }

  lemma TwelveKept()
    ensures Kept(SCRIPT_12)
  {
    hide *;
    ScriptNames();
    KeptOne(3, |Script(3)|);
    assert Script(3)[..|Script(3)|] == Script(3);
  }

  /** 0.0.12 and the first drops, none of a table that 0.0.12 needs. */
  lemma FewDrops(t: TableName, m: nat, slot: Option<Table>)
    requires m < 8
    ensures |DROPPED| == 12 && |SCRIPT_13| == 38
    ensures On(t, SCRIPT_12 + SCRIPT_13[..m], slot) == if t in DROPPED[..m] then Some(None) else On(t, SCRIPT_12, slot)
  {
    EarlyDropped(t, m);
    OnDropsPart(t, m, slot);
    Tables12();
    hide SCRIPT_12, SCRIPT_13, DROPPED, On;
    OnConcat(t, SCRIPT_12, SCRIPT_13[..m], slot);
    if t in DROPPED[..m] {
      Untouched(t, SCRIPT_12, slot);
    } else if On(t, SCRIPT_12, slot).Some? {
      OnDropsPart(t, m, On(t, SCRIPT_12, slot).value);
    }
  }

  lemma FewDropsRepeat(t: TableName, m: nat)
    requires m < 8
    ensures |SCRIPT_13| == 38 && RepeatsAt(t, SCRIPT_12 + SCRIPT_13[..m])
  {
    FewDrops(t, m, None);
    TwelveKept();
    hide SCRIPT_12, SCRIPT_13, DROPPED, On, Kept;
    KeptRepeatsAt(t, SCRIPT_12);
    var ss := SCRIPT_12 + SCRIPT_13[..m];
    forall slot | On(t, ss, slot).Some? ensures On(t, ss, On(t, ss, slot).value) == On(t, ss, slot) {
      FewDrops(t, m, slot);
      FewDrops(t, m, On(t, ss, slot).value);
    }
  }

  /** 0.0.12 and a part of 0.0.13 that has created all tables again: where 0.0.12 succeeds, the twelve
      tables come out the same whatever they were. */
  lemma CreatedAgain(t: TableName, m: nat, slot: Option<Table>)
    requires 24 <= m <= 38
    ensures |SCRIPT_13| == 38 && |Rest13()| == 26
    ensures On(t, SCRIPT_12 + SCRIPT_13[..m], slot) ==
              if On(t, SCRIPT_12, slot).None? then None
              else if IsReset(t) then On(t, Rest13()[..m - 12], None) else On(t, SCRIPT_12, slot)
  {
    OnRestPart(t, m, slot);
    hide SCRIPT_12, SCRIPT_13, On, IsReset, Rest13;
    OnConcat(t, SCRIPT_12, SCRIPT_13[..m], slot);
    if On(t, SCRIPT_12, slot).Some? {
      OnRestPart(t, m, On(t, SCRIPT_12, slot).value);
    }
  }

  lemma CreatedRepeats(t: TableName, m: nat)
    requires 24 <= m <= 38
    ensures |SCRIPT_13| == 38 && RepeatsAt(t, SCRIPT_12 + SCRIPT_13[..m])
  {
    CreatedAgain(t, m, None);
    ResetDef(t);
    TwelveKept();
    hide SCRIPT_12, SCRIPT_13, On, Kept, Rest13, IsReset, DEFS_13, DefOf, ResetTable;
    KeptRepeatsAt(t, SCRIPT_12);
    var ss := SCRIPT_12 + SCRIPT_13[..m];
    forall slot | On(t, ss, slot).Some? ensures On(t, ss, On(t, ss, slot).value) == On(t, ss, slot) {
      var x := On(t, ss, slot).value;
      CreatedAgain(t, m, slot);
      if IsReset(t) {
        CreatedPart(t, m);
        TwelveRuns(t, x.value);
      }
      CreatedAgain(t, m, x);
    }
  }

  lemma OneRepeats(t: TableName, e: nat, m: nat)
    requires e <= 10 && m <= |Script(e)|
    ensures RepeatsAt(t, Script(e)[..m])
  {
    hide *;
    ScriptNames();
    ResetSplit(0);
    if e == RESET {
      ResetPartRepeats(t, m);
    } else if e < 10 {
      KeptOne(e, m);
      KeptRepeatsAt(t, Script(e)[..m]);
    } else {
      assert Script(e)[..m] == [];
      NothingRepeats(t);
    }
  }

  lemma TwoRepeat(t: TableName, e: nat, m: nat)
    requires 1 <= e <= 10 && m <= |Script(e)|
    requires !(e == RESET && 8 <= m < 24)
    ensures RepeatsAt(t, Script(e - 1) + Script(e)[..m])
  {
    hide *;
    ScriptNames();
    ResetSplit(0);
    if e == RESET + 1 {
      AfterResetRepeats(t, m);
    } else if e == RESET {
      if m < 8 { FewDropsRepeat(t, m); } else { CreatedRepeats(t, m); }
    } else if e < 10 {
      KeptPair(e, m);
      KeptRepeatsAt(t, Script(e - 1) + Script(e)[..m]);
    } else {
      assert Script(e - 1) + Script(e)[..m] == Script(9)[..|Script(9)|];
      OneRepeats(t, 9, |Script(9)|);
    }
  }

  /** One script, if any, and a part of the next repeat themselves, except for 0.0.12 and a part of
      0.0.13 that has dropped a table 0.0.12 needs and not created it again. */
  lemma PairRepeats(r: nat, e: nat, m: nat)
    requires e <= 10 && m <= |Script(e)| && (r == e || r + 1 == e)
    requires !(r == 3 && e == RESET && 8 <= m < 24)
    ensures Repeats(Between(r, e) + Script(e)[..m])
  {
    hide *;
    ScriptNames();
    BetweenNone(e);
    var ss := Between(r, e) + Script(e)[..m];
    if r == e {
      assert ss == Script(e)[..m];
    } else {
      BetweenOne(r);
    }
    forall t ensures RepeatsAt(t, ss) {
      if r == e { OneRepeats(t, e, m); } else { TwoRepeat(t, e, m); }
    }
    RepeatsEverywhere(ss);
  }

  lemma NothingRepeats(t: TableName)
    ensures RepeatsAt(t, [])
  {
  }

  lemma BetweenNone(e: nat)
    ensures Between(e, e) == []
  {
    hide Script;
  }

  lemma BetweenOne(r: nat)
    ensures Between(r, r + 1) == Script(r)
  {
    hide Script;
    assert Between(r + 1, r + 1) == [];
  }

  // ---- Any number of runs ----

  /** A run that began before 0.0.13 stops inside it while a table that 0.0.12 needs is dropped and not
      created again. */
  predicate Trapped(q: nat, left: seq<Step>) {
    q < RESET && left != [] && left[0].Change? && left[0].script == RESET && 8 <= left[0].at < 24
  }

  /** A run stops inside 0.0.15, whose version is stored already, and the updates that are left would
      change something. */
  ghost predicate Lossy(out: Stop) {
    && out.left != [] && out.left[0].Change? && out.left[0].script == FIX
    && ExecAll(Script(FIX)[Reach(out.left[0].at)..], out.s.tables) != Some(out.s.tables)
  }

  function Reach(m: nat): (r: nat)
    ensures r <= |Script(FIX)| && (m <= |Script(FIX)| ==> r == m)
  {
    if m <= |Script(FIX)| then m else |Script(FIX)|
  }

  /** The tables that the pending scripts lead to, None if one of them fails. */
  function Goal(n: nat, s: Point): Option<Db> { ExecAll(Between(Start(n, s.version), n), s.tables) }

  /** The version is the first one, or that of a script from q on. */
  ghost predicate Known(q: nat, n: nat, v0: string, v: string) {
    v == v0 || exists j :: q <= j < n && v == Version(j)
  }

  lemma RunStops(n: nat, k: nat, s: Point) returns (e: nat, m: nat)
    requires n <= 10
    ensures
      var q, out := Start(n, s.version), Run(n, k, s);
      && StopsAt(q, q, n, s.version, s, out, e, m)
      && Finishes(q, n, k, |PlanFrom(q, n, s.version)|, s, out)
  {
    hide Start, StopsAt, Finishes, PlanFrom, RunSteps;
    var q := Start(n, s.version);
    e, m := Process(q, q, n, s.version, k, s);
  }

  lemma {:induction false} BetweenConcat(i: nat, j: nat, k: nat)
    requires i <= j <= k
    ensures Between(i, k) == Between(i, j) + Between(j, k)
    decreases j - i
  {
    hide Script;
    if i < j {
      BetweenConcat(i + 1, j, k);
      assert Script(i) + (Between(i + 1, j) + Between(j, k)) == (Script(i) + Between(i + 1, j)) + Between(j, k);
    } else {
      assert [] + Between(j, k) == Between(j, k);
    }
  }

  lemma PartOf(r: nat, e: nat, m: nat, n: nat) returns (rest: seq<Stmt>)
    requires r <= e <= n && m <= |Script(e)| && (e == n ==> m == 0)
    ensures Between(r, n) == (Between(r, e) + Script(e)[..m]) + rest
    ensures e < n && m == |Script(e)| ==> rest == Between(e + 1, n)
  {
    hide Script;
    BetweenConcat(r, e, n);
    if e < n {
      rest := Script(e)[m..] + Between(e + 1, n);
      assert Script(e) == Script(e)[..m] + Script(e)[m..];
      Regroup(Between(r, e), Script(e)[..m], Script(e)[m..], Between(e + 1, n));
    } else {
      rest := [];
    }
  }

  /** Doing the part from r to m statements into e again, and then the rest, comes to the same. */
  lemma GoalFrom(n: nat, q: nat, r: nat, e: nat, m: nat, d: Db, d1: Db)
    requires q <= r <= e <= n && m <= |Script(e)| && (e == n ==> m == 0)
    requires ExecAll(Between(q, e) + Script(e)[..m], d) == Some(d1)
    requires Repeats(Between(r, e) + Script(e)[..m])
    ensures ExecAll(Between(r, n), d1) == ExecAll(Between(q, n), d)
  {
    hide Script, ExecAll, Between;
    var part := Between(r, e) + Script(e)[..m];
    var rest := PartOf(r, e, m, n);
    BetweenConcat(q, r, e);
    BetweenConcat(q, r, n);
    assert Between(q, e) + Script(e)[..m] == Between(q, r) + part;
    ExecConcat(Between(q, r), part, d);
    ExecConcat(Between(q, r), part + rest, d);
    var mid := ExecAll(Between(q, r), d).value;
    ExecConcat(part, rest, mid);
    ExecConcat(part, rest, d1);
    assert ExecAll(part, mid) == Some(d1);
  }

  /** Going on after script e. */
  lemma GoalAfter(n: nat, q: nat, e: nat, d: Db, d1: Db)
    requires q <= e < n && ExecAll(Between(q, e) + Script(e)[..|Script(e)|], d) == Some(d1)
    ensures ExecAll(Between(e + 1, n), d1) == ExecAll(Between(q, n), d)
  {
    hide Script, ExecAll, Between;
    var rest := PartOf(q, e, |Script(e)|, n);
    ExecConcat(Between(q, e) + Script(e)[..|Script(e)|], rest, d);
  }

  lemma AtGoal(n: nat, q: nat, d: Db, d1: Db)
    requires q <= n && ExecAll(Between(q, n) + Script(n)[..0], d) == Some(d1)
    ensures ExecAll(Between(q, n), d) == Some(d1) && ExecAll(Between(n, n), d1) == Some(d1)
  {
    hide Script;
    assert Between(q, n) + Script(n)[..0] == Between(q, n);
  }

  lemma ResetLength()
    ensures |Script(RESET)| == 38 && RESET == 4 && FIX == 6
  {
    ScriptNames();
    ResetSplit(0);
    hide *;
  }

  lemma StartLocal(n: nat, v0: string)
    requires n <= 10
    ensures Start(n, Local(Start(n, v0), n, v0)) == n
  {
    hide Version, Compare, Start;
    if Start(n, v0) < n { StartAfter(n - 1, n); }
  }

  lemma WholeFix(n: nat, q: nat)
    requires q <= FIX < n
    ensures Between(q, n) == Between(q, FIX) + (Script(FIX) + Between(FIX + 1, n))
  {
    hide Script;
    BetweenConcat(q, FIX, n);
  }

  /** After m statements of 0.0.15 an uninterrupted run does the rest of it and the later scripts. */
  lemma FixRest(n: nat, q: nat, m: nat, d: Db, d1: Db)
    requires q <= FIX < n && m <= |Script(FIX)|
    requires ExecAll(Between(q, FIX) + Script(FIX)[..m], d) == Some(d1)
    ensures ExecAll(Between(q, n), d) ==
      match ExecAll(Script(FIX)[m..], d1) case None => None case Some(d2) => ExecAll(Between(FIX + 1, n), d2)
  {
    hide *;
    var head, tail, later := Script(FIX)[..m], Script(FIX)[m..], Between(FIX + 1, n);
    WholeFix(n, q);
    assert Script(FIX) == head + tail;
    Regroup(Between(q, FIX), head, tail, later);
    assert Between(q, n) == (Between(q, FIX) + head) + (tail + later);
    ExecConcat(Between(q, FIX) + head, tail + later, d);
    ExecConcat(tail, later, d1);
  }

  /** A run that neither is trapped nor loses updates leaves the goal as it was. */
  lemma KeepGoal(n: nat, k: nat, s: Point)
    requires n <= 10 && !Trapped(Start(n, s.version), Run(n, k, s).left) && !Lossy(Run(n, k, s))
    ensures Goal(n, Run(n, k, s).s) == Goal(n, s)
  {
    ResetLength();
    hide Script, Version, Start, Run, ExecAll, Between, Compare, PlanFrom, RunSteps, RESET, FIX, Repeats;
    var q, out := Start(n, s.version), Run(n, k, s);
    var e, m := RunStops(n, k, s);
    if out.left == [] {
      AtGoal(n, q, s.tables, out.s.tables);
      StartLocal(n, s.version);
    } else if e == FIX && out.left[0].Change? {
      StartAfter(FIX, n);
      FixRest(n, q, m, s.tables, out.s.tables);
    } else if out.s.version == Stored(q, e, s.version) {
      StartStored(q, e, n, s.version);
      var r := if e == q then q else e - 1;
      PairRepeats(r, e, m);
      GoalFrom(n, q, r, e, m, s.tables, out.s.tables);
    } else {
      assert m == |Script(e)|;
      StartAfter(e, n);
      GoalAfter(n, q, e, s.tables, out.s.tables);
    }
  }

  /** No run moves the start back, and the stored version is the first one or that of a script. */
  lemma StartKept(n: nat, k: nat, s: Point)
    requires n <= 10
    ensures Start(n, s.version) <= Start(n, Run(n, k, s).s.version)
    ensures Known(Start(n, s.version), n, s.version, Run(n, k, s).s.version)
  {
    hide Script, Version, Start, Run, ExecAll, Between, Compare, PlanFrom, RunSteps, FIX;
    var q, out := Start(n, s.version), Run(n, k, s);
    var e, m := RunStops(n, k, s);
    if out.left == [] {
      StartLocal(n, s.version);
    } else if out.s.version == Stored(q, e, s.version) {
      StartStored(q, e, n, s.version);
    } else {
      StartAfter(e, n);
    }
  }

  lemma {:induction false} StartsKept(n: nat, ks: seq<nat>, s: Point)
    requires n <= 10
    ensures
      var q, v := Start(n, s.version), Runs(n, ks, s).version;
      q <= Start(n, v) && Known(q, n, s.version, v)
    decreases |ks|
  {
    hide Start, Run, Version, Compare;
    if ks != [] {
      StartKept(n, ks[0], s);
      StartsKept(n, ks[1..], Run(n, ks[0], s).s);
    }
  }

  /** No run of the schedule is trapped. */
  ghost predicate NoTrap(n: nat, ks: seq<nat>, s: Point)
    decreases |ks|
  {
    ks == [] || (!Trapped(Start(n, s.version), Run(n, ks[0], s).left) && NoTrap(n, ks[1..], Run(n, ks[0], s).s))
  }

  /** No run of the schedule loses updates. */
  ghost predicate NoLoss(n: nat, ks: seq<nat>, s: Point)
    decreases |ks|
  {
    ks == [] || (!Lossy(Run(n, ks[0], s)) && NoLoss(n, ks[1..], Run(n, ks[0], s).s))
  }

  lemma {:induction false} GoalsKept(n: nat, ks: seq<nat>, s: Point)
    requires n <= 10 && NoTrap(n, ks, s) && NoLoss(n, ks, s)
    ensures Goal(n, Runs(n, ks, s)) == Goal(n, s)
    decreases |ks|
  {
    hide Goal, Start, Run, Trapped, Lossy;
    if ks != [] {
      KeepGoal(n, ks[0], s);
      GoalsKept(n, ks[1..], Run(n, ks[0], s).s);
    }
  }

  /** A completed run has reached the goal and stored the last version. */
  lemma CompletedRun(n: nat, k: nat, s: Point)
    requires n <= 10 && Run(n, k, s).left == []
    ensures Goal(n, s) == Some(Run(n, k, s).s.tables)
    ensures Run(n, k, s).s.version == Local(Start(n, s.version), n, s.version)
  {
    hide Script, Version, Start, Run, ExecAll, Between, Compare, PlanFrom, RunSteps, Local;
    var e, m := RunStops(n, k, s);
    AtGoal(n, Start(n, s.version), s.tables, Run(n, k, s).s.tables);
  }

  lemma WholeCompletes(n: nat, s: Point)
    requires n <= 10
    ensures Whole(n, s).left == [] <==> Goal(n, s).Some?
  {
    hide Script, Version, Start, Run, ExecAll, Between, Compare, PlanFrom, RunSteps, StopsAt;
    var steps := |PlanFrom(Start(n, s.version), n, s.version)|;
    var e, m := RunStops(n, steps, s);
    if Whole(n, s).left == [] { CompletedRun(n, steps, s); }
  }

  lemma SameLast(n: nat, q: nat, v0: string, v: string)
    requires n <= 10 && q == Start(n, v0) <= Start(n, v) && Known(q, n, v0, v)
    ensures Local(Start(n, v), n, v) == Local(q, n, v0)
  {
    hide Version, Start, Compare;
    if v != v0 && Start(n, v) == n {
      var j :| q <= j < n && v == Version(j);
      StartAfter(j, n);
    }
  }

  /** Convergence statement by statement: when no run is trapped or loses updates, the pending work can
      be completed exactly when one uninterrupted run completes, and a run that completes leaves the
      tables and the version of that run. */
  lemma StepsConverge(n: nat, s0: Point, ks: seq<nat>, k: nat)
    requires n <= 10 && NoTrap(n, ks, s0) && NoLoss(n, ks, s0)
    ensures Whole(n, Runs(n, ks, s0)).left == [] <==> Whole(n, s0).left == []
    ensures
      var last := Run(n, k, Runs(n, ks, s0));
      last.left == [] ==> Whole(n, s0).left == [] && last.s == Whole(n, s0).s
  {
    GoalsKept(n, ks, s0);
    hide *;
    var s := Runs(n, ks, s0);
    WholeCompletes(n, s0);
    WholeCompletes(n, s);
    if Run(n, k, s).left == [] {
      CompletedRun(n, k, s);
      WholeRuns(n, s0);
      LastVersion(n, s0, ks);
    }
  }

  lemma LastVersion(n: nat, s0: Point, ks: seq<nat>)
    requires n <= 10
    ensures
      var v := Runs(n, ks, s0).version;
      Local(Start(n, v), n, v) == Local(Start(n, s0.version), n, s0.version)
  {
    hide *;
    StartsKept(n, ks, s0);
    SameLast(n, Start(n, s0.version), s0.version, Runs(n, ks, s0).version);
  }

  lemma WholeRuns(n: nat, s: Point)
    requires n <= 10 && Goal(n, s).Some?
    ensures Whole(n, s).left == [] && Goal(n, s) == Some(Whole(n, s).s.tables)
    ensures Whole(n, s).s.version == Local(Start(n, s.version), n, s.version)
  {
    WholeCompletes(n, s);
    hide Goal, Run, Start, Local;
    CompletedRun(n, |PlanFrom(Start(n, s.version), n, s.version)|, s);
  }

  lemma GoalIs(n: nat, s: Point)
    ensures Goal(n, s) == ExecAll(Between(Start(n, s.version), n), s.tables)
  {
    hide Start, Between, ExecAll;
  }

  lemma {:induction false} BetweenIs(i: nat, j: nat)
    requires i <= j <= 10
    ensures |SCRIPTS| == 10 && Between(i, j) == Flatten(SCRIPTS[i..j])
    decreases j - i
  {
    hide *;
    ScriptNames();
    if i < j {
      BetweenIs(i + 1, j);
      assert SCRIPTS[i..j] == [SCRIPTS[i]] + SCRIPTS[i + 1..j];
      FlattenConcat([SCRIPTS[i]], SCRIPTS[i + 1..j]);
      Flatten1(SCRIPTS[i]);
      BetweenUnfold(i, j);
    } else {
      BetweenNone(i);
      assert SCRIPTS[i..j] == [];
      FlattenNone();
    }
  }

  lemma BetweenUnfold(i: nat, j: nat)
    requires i < j
    ensures Between(i, j) == Script(i) + Between(i + 1, j)
  {
    hide Script;
  }

  lemma FlattenNone()
    ensures Flatten([]) == []
  {
  }
}
