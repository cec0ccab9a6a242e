/** The run script by script and the run statement by statement: in any folder that ends with the shipped
    files the statements are those of the plan, and without deaths the grain does not matter. */
module Grains {
  import opened Strings
  import opened Versions
  import opened Sql
  import opened Scripts
  import opened Completion
  import opened Shipped
  import opened Statements
  import Files
  import Runner
  import Recovery

  lemma ShippedVersion(root: string, n: nat, i: nat)
    requires i < n <= 10
    ensures |ShippedFolder(root, n).files| == n && ShippedFolder(root, n).files[i].version == Version(i)
  {
    VersionsCount();
    hide VERSIONS, PathOf;
  }

  lemma StartIs(n: nat, v: string)
    ensures Start(n, v) == First(v, 0, n)
  {
    hide First;
  }

  // ---- Folders that hold older files too ----

  /** The statements of a plan over whole scripts. */
  function Expand(plan: seq<Runner.Op>): seq<Step> {
    if plan == [] then []
    else
      (match plan[0] case Apply(f) => StepsOf(Find(f.version, 0)) case Store(v) => [Write(v)]) + Expand(plan[1..])
  }

  /** One process on a folder, killed after k statements. */
  function FolderRun(folder: Runner.Folder<Db>, k: nat, s: Point): Stop {
    RunSteps(Expand(Runner.Plan(Files.Above(folder.files, s.version), s.version)), k, s)
  }

  function FolderRuns(folder: Runner.Folder<Db>, ks: seq<nat>, s: Point): Point
    decreases |ks|
  {
    if ks == [] then s else FolderRuns(folder, ks[1..], FolderRun(folder, ks[0], s).s)
  }

  lemma ExpandApply(f: Files.File, i: nat, rest: seq<Runner.Op>)
    requires Find(f.version, 0) == i
    ensures Expand([Runner.Apply(f)] + rest) == StepsOf(i) + Expand(rest)
  {
    hide StepsOf, Find;
    assert ([Runner.Apply(f)] + rest)[1..] == rest;
  }

  lemma ExpandStore(v: string, rest: seq<Runner.Op>)
    ensures Expand([Runner.Store(v)] + rest) == [Write(v)] + Expand(rest)
  {
    hide StepsOf, Find;
    assert ([Runner.Store(v)] + rest)[1..] == rest;
  }

  lemma PlanCons(files: seq<Files.File>, v: string)
    requires files != []
    ensures Runner.Plan(files, v) ==
      [Runner.Apply(files[0])]
      + ((if v != files[0].version then [Runner.Store(v)] else []) + Runner.Plan(files[1..], files[0].version))
  {
  }

  /** The plan for the shipped files from i on expands to the statements from i on. */
  lemma {:induction false} ExpandsTo(root: string, n: nat, i: nat, local: string)
    requires i <= n <= 10 && |ShippedFolder(root, n).files| == n
    ensures Expand(Runner.Plan(ShippedFolder(root, n).files[i..], local)) == PlanFrom(i, n, local)
    decreases n - i
  {
    hide *;
    var files := ShippedFolder(root, n).files;
    if i == n {
      assert files[i..] == [];
      PlanEnds(i, n, local);
    } else {
      var f, later := files[i], Runner.Plan(files[i + 1..], Version(i));
      ShippedVersion(root, n, i);
      FindVersion(i);
      assert files[i..][0] == f && files[i..][1..] == files[i + 1..];
      PlanCons(files[i..], local);
      ExpandsTo(root, n, i + 1, Version(i));
      PlanUnfold(i, n, local);
      if local != Version(i) {
        ExpandApply(f, i, [Runner.Store(local)] + later);
        ExpandStore(local, later);
      } else {
        assert [] + later == later && [] + PlanFrom(i + 1, n, Version(i)) == PlanFrom(i + 1, n, Version(i));
        ExpandApply(f, i, later);
      }
    }
  }

  lemma PlanEnds(i: nat, n: nat, local: string)
    requires i >= n
    ensures Expand(Runner.Plan([], local)) == PlanFrom(i, n, local)
  {
    assert Runner.Plan([], local) == [Runner.Store(local)] + [];
    ExpandStore(local, []);
  }

  lemma PlanUnfold(i: nat, n: nat, local: string)
    requires i < n
    ensures PlanFrom(i, n, local) ==
      StepsOf(i) + ((if local != Version(i) then [Write(local)] else []) + PlanFrom(i + 1, n, Version(i)))
  {
    hide StepsOf, Version;
  }

  lemma FindVersion(i: nat)
    requires i < 10
    ensures Find(Version(i), 0) == i
  {
    VersionsCount();
    hide VERSIONS;
    FindShipped(i, 0);
  }

  /** A stored version covers the older files when all of them are at or below it. */
  ghost predicate Covers(folder: Runner.Folder<Db>, older: seq<Files.File>, v: string) {
    Files.Pos(folder.files, v) >= |older|
  }

  lemma FilesAre(folder: Runner.Folder<Db>, older: seq<Files.File>, root: string, n: nat)
    requires ShipsLast(folder, older, root, n)
    ensures n <= 10 && Files.Sorted(folder.files) && |ShippedFolder(root, n).files| == n
    ensures folder.files == older + ShippedFolder(root, n).files
  {
    ShippedCount(root, n);
    hide ShippedFolder, Files.Sorted;
  }

  lemma CoversIs(folder: Runner.Folder<Db>, older: seq<Files.File>, v: string)
    ensures Covers(folder, older, v) <==> Files.Pos(folder.files, v) >= |older|
  {
    hide Files.Pos;
  }

  lemma PosAfter(folder: Runner.Folder<Db>, older: seq<Files.File>, root: string, n: nat, v: string)
    requires ShipsLast(folder, older, root, n) && Covers(folder, older, v)
    ensures n <= 10 && |ShippedFolder(root, n).files| == n
    ensures Files.Above(folder.files, v) == ShippedFolder(root, n).files[Start(n, v)..]
  {
    hide *;
    FilesAre(folder, older, root, n);
    CoversIs(folder, older, v);
    var own, p := ShippedFolder(root, n).files, Files.Pos(folder.files, v);
    Files.SplitAtPos(folder.files, v);
    assert folder.files[p..] == own[p - |older|..];
    forall j: nat | j < p - |older| ensures Compare(v, Version(j)) >= 0 {
      ShippedVersion(root, n, j);
      assert folder.files[|older| + j] == own[j];
      CompareTotalPreorder(own[j].version, v, v);
    }
    if p - |older| < n {
      ShippedVersion(root, n, p - |older|);
      assert folder.files[p] == own[p - |older|];
      CompareTotalPreorder(folder.files[p].version, v, v);
    }
    StartIs(n, v);
    FirstFrom(v, 0, n, p - |older|);
  }

  /** What covers the older files at the first start covers them later. */
  lemma StillCovers(folder: Runner.Folder<Db>, older: seq<Files.File>, root: string, n: nat, v0: string, v: string)
    requires ShipsLast(folder, older, root, n) && Covers(folder, older, v0) && Known(Start(n, v0), n, v0, v)
    ensures Covers(folder, older, v)
  {
    FilesAre(folder, older, root, n);
    hide ShippedFolder, Files.Sorted, Start, Compare, ShipsLast, Version;
    if v != v0 {
      var j :| Start(n, v0) <= j < n && v == Version(j);
      ShippedVersion(root, n, j);
      Recovery.PosOfFile(folder.files, |older| + j);
    }
  }

  lemma FolderSteps(folder: Runner.Folder<Db>, older: seq<Files.File>, root: string, n: nat, k: nat, s: Point)
    requires ShipsLast(folder, older, root, n) && Covers(folder, older, s.version)
    ensures FolderRun(folder, k, s) == Run(n, k, s)
    ensures Covers(folder, older, Run(n, k, s).s.version)
  {
    hide *;
    PosAfter(folder, older, root, n, s.version);
    ExpandsTo(root, n, Start(n, s.version), s.version);
    RunIs(folder, n, k, s);
    StartKept(n, k, s);
    StillCovers(folder, older, root, n, s.version, Run(n, k, s).s.version);
  }

  lemma RunIs(folder: Runner.Folder<Db>, n: nat, k: nat, s: Point)
    ensures FolderRun(folder, k, s) ==
      RunSteps(Expand(Runner.Plan(Files.Above(folder.files, s.version), s.version)), k, s)
    ensures Run(n, k, s) == RunSteps(PlanFrom(Start(n, s.version), n, s.version), k, s)
  {
    hide Expand, RunSteps, Start, PlanFrom, Runner.Plan, Files.Above;
  }

  /** In any folder that ends with the first n shipped files, from any database whose stored version
      covers the older ones, any number of runs statement by statement are the runs over the shipped
      scripts: what holds of these holds of the folder. */
  lemma {:induction false} FolderGrain(folder: Runner.Folder<Db>, older: seq<Files.File>, root: string, n: nat,
                                       ks: seq<nat>, k: nat, s: Point)
    requires ShipsLast(folder, older, root, n) && Covers(folder, older, s.version)
    ensures FolderRuns(folder, ks, s) == Runs(n, ks, s)
    ensures FolderRun(folder, k, FolderRuns(folder, ks, s)) == Run(n, k, Runs(n, ks, s))
    decreases |ks|
  {
    hide ShipsLast, Covers, FolderRun, Run;
    if ks == [] {
      FolderSteps(folder, older, root, n, k, s);
    } else {
      FolderSteps(folder, older, root, n, ks[0], s);
      FolderGrain(folder, older, root, n, ks[1..], k, Run(n, ks[0], s).s);
    }
  }

  // ---- Without deaths the grain does not matter ----

  lemma StartIsPos(root: string, n: nat, v: string)
    requires n <= 10
    ensures |ShippedFolder(root, n).files| == n && Files.Pos(ShippedFolder(root, n).files, v) == Start(n, v)
  {
    ShippedCount(root, n);
    hide *;
    var files := ShippedFolder(root, n).files;
    var p := Files.Pos(files, v);
    forall j: nat | j < p ensures Compare(v, Version(j)) >= 0 {
      ShippedVersion(root, n, j);
      CompareTotalPreorder(files[j].version, v, v);
    }
    if p < n {
      ShippedVersion(root, n, p);
      CompareTotalPreorder(files[p].version, v, v);
    }
    FirstFrom(v, 0, n, p);
    StartIs(n, v);
  }

  /** Executing shipped file i is sending its statements: both fail alike, and else leave the same tables
      and the same version row, the script's own write of the version included. */
  lemma FileGrain(root: string, n: nat, i: nat, s: Point, executed: seq<Files.File>)
    requires i < n <= 10 && |ShippedFolder(root, n).files| == n
    ensures
      var folder := ShippedFolder(root, n);
      var out := RunSteps(StepsOf(i), |StepsOf(i)|, s);
      match Runner.Do(folder, Runner.Apply(folder.files[i]), Runner.State(s.tables, s.version, executed))
      case None => out.left != []
      case Some(state) => out == Stop(Point(state.tables, state.version), [])
  {
    hide *;
    var folder := ShippedFolder(root, n);
    ScriptSteps(i, s);
    ShippedVersion(root, n, i);
    FindVersion(i);
    ScriptNames();
    FileDoes(root, n, i, Runner.State(s.tables, s.version, executed));
  }

  lemma FileDoes(root: string, n: nat, i: nat, state: Runner.State<Db>)
    requires i < n <= 10 && |ShippedFolder(root, n).files| == n && |SCRIPTS| == 10
    requires ShippedFolder(root, n).files[i].version == Version(i) && Find(Version(i), 0) == i
    ensures
      var folder := ShippedFolder(root, n);
      Runner.Do(folder, Runner.Apply(folder.files[i]), state) ==
        match ExecAll(SCRIPTS[i], state.tables)
        case None => None
        case Some(t) =>
          Some(Runner.State(t, if i < 2 then state.version else Version(i), state.executed + [folder.files[i]]))
  {
    hide SCRIPTS, VERSIONS, Version, PathOf, Find, ExecAll;
  }

  lemma ScriptSteps(i: nat, s: Point)
    requires i < 10
    ensures
      var out := RunSteps(StepsOf(i), |StepsOf(i)|, s);
      match ExecAll(Script(i), s.tables)
      case None => out.left != []
      case Some(t) => out == Stop(Point(t, if i < 2 then s.version else Version(i)), [])
  {
    hide *;
    ResetLength();
    StepsAre(i, []);
    assert StepsOf(i) + [] == StepsOf(i);
    var last: seq<Step> := if i < 2 || i == FIX then [] else [Write(Version(i))];
    if i == FIX {
      assert last + last == last;
      WriteStep(Version(i), Changes(i, 0) + last, |StepsOf(i)|, s);
      BodySteps(i, last, |StepsOf(i)| - 1, s.(version := Version(i)));
    } else {
      assert last + [] == last;
      if i < 2 { assert [] + last == last; }
      BodySteps(i, last, |StepsOf(i)|, s);
    }
    if ExecAll(Script(i), s.tables).Some? {
      LastStep(last, ExecAll(Script(i), s.tables).value, if i == FIX then Version(i) else s.version, Version(i));
    }
  }

  lemma LastStep(last: seq<Step>, t: Db, v: string, w: string)
    requires last == [] || last == [Write(w)]
    ensures RunSteps(last, |last|, Point(t, v)) == Stop(Point(t, if last == [] then v else w), [])
  {
    hide Script, Exec, Version;
    assert [Write(w)][1..] == [];
    WriteStep(w, [], 1, Point(t, v));
    assert [Write(w)] + [] == [Write(w)];
  }

  /** All statements of a script, and what follows. */
  lemma BodySteps(i: nat, rest: seq<Step>, k: nat, s: Point)
    requires k >= |Changes(i, 0)|
    ensures
      var out := RunSteps(Changes(i, 0) + rest, k, s);
      match ExecAll(Script(i), s.tables)
      case None => out.left != []
      case Some(t) => out == RunSteps(rest, k - |Changes(i, 0)|, Point(t, s.version))
  {
    hide Script, RunSteps, Changes, ExecAll, Exec, Between;
    var m := ScriptRun(i, 0, rest, k, s);
    assert Script(i)[0..m] == Script(i)[..m];
    if m < |Script(i)| {
      FailsInside(i, i + 1, m, s.tables);
      BetweenOne(i);
    } else {
      assert Script(i)[..m] == Script(i);
    }
  }

  /** One uninterrupted run is the same statement by statement as script by script. */
  lemma SameWhole(root: string, n: nat, s: Point, executed: seq<Files.File>)
    requires n <= 10
    ensures
      var out := Runner.Uninterrupted(ShippedFolder(root, n), Runner.State(s.tables, s.version, executed));
      && (out.completed <==> Whole(n, s).left == [])
      && (out.completed ==> out.s.tables == Whole(n, s).s.tables && out.s.version == Whole(n, s).s.version)
  {
    hide *;
    var folder, state, q := ShippedFolder(root, n), Runner.State(s.tables, s.version, executed), Start(n, s.version);
    StartIsPos(root, n, s.version);
    StartOfIs(folder, state);
    ShippedReady(root, n, q);
    Recovery.CompletesWhen(folder, state);
    ScriptNames();
    OwnBlock(root, n, q, s.tables);
    BetweenIs(q, n);
    GoalIs(n, s);
    WholeCompletes(n, s);
    if Goal(n, s).Some? {
      WholeRuns(n, s);
      WholeVersion(root, n, s, state);
    }
  }

  lemma StartOfIs(folder: Runner.Folder<Db>, s: Runner.State<Db>)
    ensures Recovery.StartOf(folder, s) == Files.Pos(folder.files, s.version)
  {
  }

  lemma WholeVersion(root: string, n: nat, s: Point, state: Runner.State<Db>)
    requires n <= 10 && state.version == s.version && state.tables == s.tables
    requires Recovery.StartOf(ShippedFolder(root, n), state) == Start(n, s.version)
    requires Runner.Uninterrupted(ShippedFolder(root, n), state).completed
    ensures |ShippedFolder(root, n).files| == n
    ensures
      var out, q := Runner.Uninterrupted(ShippedFolder(root, n), state).s, Start(n, s.version);
      && out.version == Local(q, n, s.version)
      && Recovery.Block(ShippedFolder(root, n), ShippedFolder(root, n).files[q..], s.tables) == Some(out.tables)
  {
    hide *;
    var folder, q := ShippedFolder(root, n), Start(n, s.version);
    ShippedCount(root, n);
    ShippedReady(root, n, q);
    Recovery.WholeEnd(folder, state);
    LocalIs(q, n, s.version);
    if q < n { ShippedVersion(root, n, n - 1); }
  }

  lemma LocalIs(q: nat, e: nat, v0: string)
    ensures Local(q, e, v0) == if e <= q then v0 else Version(e - 1)
  {
    hide Version;
  }
}
