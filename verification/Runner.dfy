/** The migration run of cmd/migrate/main.go as a process that may die between any two database
    statements and be started again on the same folder. */
module Runner {
  import opened Strings
  import opened Files

  /** What the runs work on: the catalogue of files up to the target in the order of application, the
      effect of each script on the tables (None when the script fails, which changes nothing and ends
      the process), and the version a script itself writes to the version row, if any. */
  datatype Folder<!D> = Folder(
    files: seq<File>,
    exec: (File, D) -> Option<D>,
    sets: File -> Option<string>)

  /** The database: its tables, its version row, and as history the scripts executed so far. */
  datatype State<D> = State(tables: D, version: string, executed: seq<File>)

  datatype Op = Apply(file: File) | Store(v: string)

  /** The statements a run sends for the selected files when its local version variable holds
      `version`: every script, after the first script of a new version the version before it, and at
      the end the last version. */
  function Plan(files: seq<File>, version: string): seq<Op> {
    if files == [] then [Store(version)]
    else [Apply(files[0])]
         + (if version != files[0].version then [Store(version)] else [])
         + Plan(files[1..], files[0].version)
  }

  function Do<D>(folder: Folder<D>, op: Op, s: State<D>): Option<State<D>> {
    match op
    case Store(v) => Some(s.(version := v))
    case Apply(f) =>
      match folder.exec(f, s.tables)
      case None => None
      case Some(t) =>
        var version := if folder.sets(f).Some? then folder.sets(f).value else s.version;
        Some(State(t, version, s.executed + [f]))
  }

  datatype Outcome<D> = Outcome(s: State<D>, completed: bool)

  /** At most k statements: the process dies before the next one. */
  function RunOps<D>(folder: Folder<D>, ops: seq<Op>, k: nat, s: State<D>): Outcome<D>
    decreases |ops|
  {
    if ops == [] then Outcome(s, true)
    else if k == 0 then Outcome(s, false)
    else
      match Do(folder, ops[0], s)
      case None => Outcome(s, false)
      case Some(s') => RunOps(folder, ops[1..], k - 1, s')
  }

  /** One process that dies after k statements, or completes if it needs no more. */
  function Run<D>(folder: Folder<D>, k: nat, s: State<D>): Outcome<D> {
    RunOps(folder, Plan(Above(folder.files, s.version), s.version), k, s)
  }

  /** One process that is not killed. */
  function Uninterrupted<D>(folder: Folder<D>, s: State<D>): Outcome<D> {
    Run(folder, |Plan(Above(folder.files, s.version), s.version)|, s)
  }

  /** One process after the other, each killed after its number of statements. */
  function Runs<D>(folder: Folder<D>, ks: seq<nat>, s: State<D>): State<D>
    decreases |ks|
  {
    if ks == [] then s else Runs(folder, ks[1..], Run(folder, ks[0], s).s)
  }

  // ---- The imperative run ----

  class Database<D> {
    var tables: D
    var version: string
    ghost var executed: seq<File>

    constructor (tables: D, version: string, ghost executed: seq<File>)
      ensures View() == State(tables, version, executed)
    {
      this.tables, this.version, this.executed := tables, version, executed;
    }

    ghost function View(): State<D>
      reads this
    {
      State(tables, version, executed)
    }

    method Exec(folder: Folder<D>, f: File) returns (ok: bool)
      modifies this
      ensures ok == Do(folder, Apply(f), old(View())).Some?
      ensures View() == if ok then Do(folder, Apply(f), old(View())).value else old(View())
    {
      var t := folder.exec(f, tables);
      if t.None? { return false; }
      tables := t.value;
      var v := folder.sets(f);
      if v.Some? { version := v.value; }
      executed := executed + [f];
      return true;
    }

    method UpdateVersion(v: string)
      modifies this
      ensures View() == old(View()).(version := v)
    {
      version := v;
    }
  }

  /** The body of main from the read of the version row to the last write of it, killed after k
      statements. */
  method Migrate<D>(db: Database<D>, folder: Folder<D>, paths: seq<string>, root: string, target: string, k: nat)
    returns (completed: bool)
    requires folder.files == Catalogue(paths, root, target)
    modifies db
    ensures Outcome(db.View(), completed) == Run(folder, k, old(db.View()))
  {
    var version := db.version;
    var files := SelectFiles(paths, root, version, target);
    files := Sort(files);
    SelectedIsAbove(paths, root, version, target);
    assert files == Above(folder.files, version);
    completed := ApplyFiles(db, folder, files, version, k);
  }

  method ApplyFiles<D>(db: Database<D>, folder: Folder<D>, files: seq<File>, stored: string, k: nat)
    returns (completed: bool)
    modifies db
    ensures Outcome(db.View(), completed) == RunOps(folder, Plan(files, stored), k, old(db.View()))
  {
    var version, left := stored, k;
    for i := 0 to |files|
      invariant RunOps(folder, Plan(files, stored), k, old(db.View())) ==
                RunOps(folder, Plan(files[i..], version), left, db.View())
    {
      var f := files[i];
      StepPlan(folder, files[i..], version, left, db.View());
      assert files[i..][1..] == files[i + 1..];
      if left == 0 { return false; }
      var ok := db.Exec(folder, f);
      if !ok { return false; }
      left := left - 1;
      if version != f.version {
        if left == 0 { return false; }
        db.UpdateVersion(version);
        left := left - 1;
        version := f.version;
      }
    }
    LastStore(folder, version, left, db.View());
    if left == 0 { return false; }
    db.UpdateVersion(version);
    return true;
  }

  lemma LastStore<D>(folder: Folder<D>, version: string, k: nat, s: State<D>)
    ensures RunOps(folder, Plan([], version), k, s) ==
              if k == 0 then Outcome(s, false) else Outcome(s.(version := version), true)
  {
    var ops := Plan([], version);
    assert ops[1..] == [];
    if k > 0 {
      assert RunOps(folder, ops, k, s) == RunOps(folder, ops[1..], k - 1, s.(version := version));
    }
  }

  /** One turn of the apply loop. */
  lemma StepPlan<D>(folder: Folder<D>, files: seq<File>, version: string, k: nat, s: State<D>)
    requires files != []
    ensures RunOps(folder, Plan(files, version), k, s) ==
      if k == 0 then Outcome(s, false) else
      match Do(folder, Apply(files[0]), s)
      case None => Outcome(s, false)
      case Some(s1) =>
        if version == files[0].version then RunOps(folder, Plan(files[1..], files[0].version), k - 1, s1)
        else if k == 1 then Outcome(s1, false)
        else RunOps(folder, Plan(files[1..], files[0].version), k - 2, s1.(version := version))
  {
    var ops, rest := Plan(files, version), Plan(files[1..], files[0].version);
    assert ops[0] == Apply(files[0]);
    if version == files[0].version {
      assert ops[1..] == rest;
    } else {
      assert ops[1..] == [Store(version)] + rest;
      assert ([Store(version)] + rest)[1..] == rest;
    }
  }
}
