/** What the crash-prone migration runs guarantee: no skipped file, bounded replay, convergence to the
    database of one uninterrupted run, and composition of staged runs. */
module Recovery {
  import opened Strings
  import opened Versions
  import opened Files
  import opened Runner

  // ---- The assumptions on a folder ----

  /** From file p on, a script that writes the version row writes the version of its own file. */
  ghost predicate Honest<D(!new)>(folder: Folder<D>, p: nat) {
    forall i | p <= i < |folder.files| && folder.sets(folder.files[i]).Some? ::
      folder.sets(folder.files[i]).value == folder.files[i].version
  }

  /** The version written around the execution of file i, by its script or by the tool when a new
      version name starts at i, is below the version of file i + 1. */
  ghost predicate SafeAt<D(!new)>(folder: Folder<D>, p: nat, i: nat)
    requires i + 1 < |folder.files|
  {
    var L := folder.files;
    && (folder.sets(L[i]).Some? ==> Compare(L[i].version, L[i + 1].version) < 0)
    && (i > p && L[i - 1].version != L[i].version ==> Compare(L[i - 1].version, L[i + 1].version) < 0)
  }

  /** The folder is safe from file p on. */
  ghost predicate SafeFrom<D(!new)>(folder: Folder<D>, p: nat) {
    forall i: nat | p <= i && i + 1 < |folder.files| :: SafeAt(folder, p, i)
  }

  ghost predicate Ready<D(!new)>(folder: Folder<D>, p: nat) {
    Sorted(folder.files) && Honest(folder, p) && SafeFrom(folder, p)
  }

  /** The position in the catalogue where a run from this state starts. */
  function StartOf<D>(folder: Folder<D>, s: State<D>): (p: nat)
    ensures p <= |folder.files|
  {
    Pos(folder.files, s.version)
  }

  /** The tables after a block of scripts, None if one fails. */
  function Block<D>(folder: Folder<D>, files: seq<File>, t: D): Option<D> {
    if files == [] then Some(t) else
    match folder.exec(files[0], t)
    case None => None
    case Some(t') => Block(folder, files[1..], t')
  }

  lemma {:induction false} BlockConcat<D>(folder: Folder<D>, xs: seq<File>, ys: seq<File>, t: D)
    ensures Block(folder, xs + ys, t) ==
              match Block(folder, xs, t) case None => None case Some(t') => Block(folder, ys, t')
  {
    if xs == [] {
      assert xs + ys == ys;
    } else {
      assert (xs + ys)[1..] == xs[1..] + ys;
      match folder.exec(xs[0], t)
      case None =>
      case Some(t') => BlockConcat(folder, xs[1..], ys, t');
    }
  }

  // ---- One process ----

  /** The files from a up to b carry one version name. */
  ghost predicate OneName(files: seq<File>, a: int, b: int) {
    forall i, j | 0 <= a <= i <= j < b <= |files| :: files[i].version == files[j].version
  }

  /** The files from a up to b carry the version name v. */
  ghost predicate AllNamed(files: seq<File>, a: int, b: int, v: string) {
    forall i | 0 <= a <= i < b <= |files| :: files[i].version == v
  }

  /** v is v0 or the version name of a file from p on. */
  ghost predicate KnownName(files: seq<File>, p: nat, v0: string, v: string) {
    v == v0 || exists i :: p <= i < |files| && files[i].version == v
  }

  /** The state of a run that started at p, before file e: the stored version lags, but only behind
      files of the version the local variable holds. */
  ghost predicate AtLoopHead<D(!new)>(folder: Folder<D>, p: nat, e: nat, local: string, s: State<D>) {
    var L := folder.files;
    && p <= e <= |L|
    && p <= StartOf(folder, s) <= e
    && AllNamed(L, StartOf(folder, s), e, local)
    && (if e > p then local == L[e - 1].version else Pos(L, local) == p)
  }

  lemma PosOfFile(files: seq<File>, e: nat)
    requires Sorted(files) && e < |files|
    ensures Pos(files, files[e].version) > e
  {
    hide Compare, Order;
    CompareTotalPreorder(files[e].version, files[e].version, files[e].version);
    PosSplits(files, files[e].version);
  }

  lemma PosBelow(files: seq<File>, v: string, e: nat)
    requires e < |files| ==> Compare(v, files[e].version) < 0
    requires e <= |files|
    ensures Pos(files, v) <= e
  {
    hide Compare, Order;
    if e < |files| {
      CompareTotalPreorder(v, files[e].version, v);
    }
  }

  /** The next loop head after file e without a version write by the tool. */
  lemma SameName<D(!new)>(folder: Folder<D>, p: nat, e: nat, v0: string, local: string, s: State<D>, s': State<D>)
    requires KnownName(folder.files, p, v0, s.version)
    requires Ready(folder, p) && AtLoopHead(folder, p, e, local, s) && e < |folder.files|
    requires Do(folder, Apply(folder.files[e]), s) == Some(s')
    ensures p <= StartOf(folder, s') <= e + 1
    ensures OneName(folder.files, StartOf(folder, s'), e)
    ensures folder.files[e].version == local ==> AtLoopHead(folder, p, e + 1, local, s')
    ensures KnownName(folder.files, p, v0, s'.version)
  {
    hide Compare, Order, Pos;
    var f := folder.files[e];
    if folder.sets(f).Some? {
      PosOfFile(folder.files, e);
      if e + 1 < |folder.files| { assert SafeAt(folder, p, e); }
      PosBelow(folder.files, f.version, e + 1);
    }
  }

  /** The next loop head when file e starts a new version name and the tool writes the old one. */
  lemma NewName<D(!new)>(folder: Folder<D>, p: nat, e: nat, local: string, s: State<D>, s': State<D>)
    requires Ready(folder, p) && AtLoopHead(folder, p, e, local, s) && e < |folder.files|
    requires folder.files[e].version != local && s'.version == local
    ensures AtLoopHead(folder, p, e + 1, folder.files[e].version, s')
  {
    hide Compare, Order, Pos;
    if e > p {
      PosOfFile(folder.files, e - 1);
      if e + 1 < |folder.files| { assert SafeAt(folder, p, e); }
      PosBelow(folder.files, local, e + 1);
    }
  }

  /** What a process does from the loop head before file e: it executes the next files in order, up
      to some e', and leaves a stored version that covers executed files only and lags by at most one
      version name and one file. Completed, it has executed all files and stored the last version. */
  ghost predicate Advances<D(!new)>(folder: Folder<D>, p: nat, e: nat, e': nat, v0: string, local: string,
                                    s: State<D>, out: Outcome<D>) {
    var L := folder.files;
    && e <= e' <= |L|
    && Block(folder, L[e..e'], s.tables) == Some(out.s.tables)
    && out.s.executed == s.executed + L[e..e']
    && p <= StartOf(folder, out.s) <= e'
    && OneName(L, StartOf(folder, out.s), e' - 1)
    && KnownName(L, p, v0, out.s.version)
    && (out.completed ==> e' == |L| && out.s.version == if e == |L| then local else L[|L| - 1].version)
  }

  lemma AdvancesStep<D(!new)>(folder: Folder<D>, p: nat, e: nat, e': nat, v0: string, local: string,
                              s: State<D>, s1: State<D>, s2: State<D>, out: Outcome<D>)
    requires e < |folder.files| && Do(folder, Apply(folder.files[e]), s) == Some(s1)
    requires s2.tables == s1.tables && s2.executed == s1.executed
    requires Advances(folder, p, e + 1, e', v0, folder.files[e].version, s2, out)
    ensures Advances(folder, p, e, e', v0, local, s, out)
    ensures Block(folder, folder.files[e..], s.tables) == Block(folder, folder.files[e + 1..], s2.tables)
  {
    hide Pos, OneName, KnownName, Block, Do;
    ApplyFacts(folder, e, s, s1);
    BlockStep(folder, e, e', s.tables);
    BlockRest(folder, e, s.tables);
    AppendFile(s.executed, folder.files, e, e');
  }

  lemma ApplyFacts<D>(folder: Folder<D>, e: nat, s: State<D>, s1: State<D>)
    requires e < |folder.files| && Do(folder, Apply(folder.files[e]), s) == Some(s1)
    ensures folder.exec(folder.files[e], s.tables) == Some(s1.tables)
    ensures s1.executed == s.executed + [folder.files[e]]
  {
  }

  lemma AppendFile(xs: seq<File>, files: seq<File>, e: nat, e': nat)
    requires e < e' <= |files|
    ensures (xs + [files[e]]) + files[e + 1..e'] == xs + files[e..e']
  {
    assert files[e..e'] == [files[e]] + files[e + 1..e'];
  }

  lemma BlockRest<D>(folder: Folder<D>, e: nat, t: D)
    requires e < |folder.files|
    ensures Block(folder, folder.files[e..], t) ==
              match folder.exec(folder.files[e], t)
              case None => None
              case Some(t') => Block(folder, folder.files[e + 1..], t')
  {
    assert folder.files[e..][1..] == folder.files[e + 1..];
  }

  lemma BlockStep<D>(folder: Folder<D>, e: nat, e': nat, t: D)
    requires e < e' <= |folder.files|
    ensures Block(folder, folder.files[e..e'], t) ==
              match folder.exec(folder.files[e], t)
              case None => None
              case Some(t') => Block(folder, folder.files[e + 1..e'], t')
  {
    assert folder.files[e..e'][1..] == folder.files[e + 1..e'];
  }

  lemma {:induction false} Process<D(!new)>(folder: Folder<D>, p: nat, e: nat, v0: string, local: string,
                                            k: nat, s: State<D>)
    returns (e': nat)
    requires Ready(folder, p) && AtLoopHead(folder, p, e, local, s)
    requires KnownName(folder.files, p, v0, local) && KnownName(folder.files, p, v0, s.version)
    ensures Advances(folder, p, e, e', v0, local, s, RunOps(folder, Plan(folder.files[e..], local), k, s))
    ensures k >= |Plan(folder.files[e..], local)| && Block(folder, folder.files[e..], s.tables).Some?
      ==> RunOps(folder, Plan(folder.files[e..], local), k, s).completed
    decreases |folder.files| - e
  {
    hide Compare, Order, Ready, RunOps, Pos, Advances, AtLoopHead, KnownName, OneName, Block, Do;
    var L := folder.files;
    LoopFacts(folder, p, e, v0, local, s);
    var out := RunOps(folder, Plan(L[e..], local), k, s);
    e' := e;
    if e == |L| {
      LastStore(folder, local, k, s);
      AtEnd(folder, p, local, s);
      assert L[e..] == [];
      Halt(folder, p, e, v0, local, s, out);
    } else {
      var f := L[e];
      assert L[e..][1..] == L[e + 1..];
      StepPlan(folder, L[e..], local, k, s);
      var next := Do(folder, Apply(f), s);
      if k == 0 || next.None? {
        Halt(folder, p, e, v0, local, s, out);
      } else {
        SameName(folder, p, e, v0, local, s, next.value);
        if local == f.version {
          e' := Process(folder, p, e + 1, v0, local, k - 1, next.value);
          AdvancesStep(folder, p, e, e', v0, local, s, next.value, next.value, out);
        } else if k == 1 {
          e' := e + 1;
          Halted(folder, p, e, v0, local, s, next.value);
        } else {
          var s2 := next.value.(version := local);
          NewName(folder, p, e, local, s, s2);
          e' := Process(folder, p, e + 1, v0, f.version, k - 2, s2);
          AdvancesStep(folder, p, e, e', v0, local, s, next.value, s2, out);
        }
      }
    }
  }

  /** The process ends before file e, either dead or at the end of the files. */
  lemma Halt<D(!new)>(folder: Folder<D>, p: nat, e: nat, v0: string, local: string, s: State<D>, out: Outcome<D>)
    requires AtLoopHead(folder, p, e, local, s)
    requires KnownName(folder.files, p, v0, local) && KnownName(folder.files, p, v0, s.version)
    requires out.s == s || (e == |folder.files| && out.s == s.(version := local)
             && p <= Pos(folder.files, local) && OneName(folder.files, Pos(folder.files, local), e - 1))
    requires out.completed ==> e == |folder.files| && out.s == s.(version := local)
    ensures Advances(folder, p, e, e, v0, local, s, out)
  {
    hide Pos;
    assert folder.files[e..e] == [];
  }

  /** The process dies between the script of file e and the write of the version before it. */
  lemma Halted<D(!new)>(folder: Folder<D>, p: nat, e: nat, v0: string, local: string, s: State<D>, s1: State<D>)
    requires e < |folder.files| && Do(folder, Apply(folder.files[e]), s) == Some(s1)
    requires p <= StartOf(folder, s1) <= e + 1
    requires OneName(folder.files, StartOf(folder, s1), e)
    requires KnownName(folder.files, p, v0, s1.version)
    ensures Advances(folder, p, e, e + 1, v0, local, s, Outcome(s1, false))
  {
    hide Pos;
    var f := folder.files[e];
    assert folder.files[e..e + 1] == [f] && [f][1..] == [];
    assert Block(folder, [f][1..], s1.tables) == Some(s1.tables);
    assert Block(folder, [f], s.tables) == Some(s1.tables);
  }

  lemma LoopFacts<D(!new)>(folder: Folder<D>, p: nat, e: nat, v0: string, local: string, s: State<D>)
    requires AtLoopHead(folder, p, e, local, s)
    ensures e <= |folder.files|
    ensures e < |folder.files| ==> KnownName(folder.files, p, v0, folder.files[e].version)
    ensures e < |folder.files| && Do(folder, Apply(folder.files[e]), s).None?
      ==> Block(folder, folder.files[e..], s.tables) == None
    ensures e < |folder.files| ==>
      |Plan(folder.files[e..], local)| == (if local == folder.files[e].version then 1 else 2)
        + |Plan(folder.files[e + 1..], folder.files[e].version)|
  {
    if e < |folder.files| {
      assert folder.files[e..][1..] == folder.files[e + 1..];
    }
  }

  lemma AtEnd<D(!new)>(folder: Folder<D>, p: nat, local: string, s: State<D>)
    requires Ready(folder, p) && AtLoopHead(folder, p, |folder.files|, local, s)
    ensures p <= Pos(folder.files, local)
    ensures OneName(folder.files, Pos(folder.files, local), |folder.files| - 1)
  {
    hide Compare, Order;
    if |folder.files| > p {
      PosOfFile(folder.files, |folder.files| - 1);
    }
  }

  // ---- Any number of processes ----

  /** The first state: the scripts at or below the stored version are the ones executed. */
  function Start<D>(folder: Folder<D>, t: D, v0: string): State<D> {
    State(t, v0, folder.files[..Pos(folder.files, v0)])
  }

  /** The executed scripts are the first h of the catalogue. */
  ghost predicate ExecutedPrefix<D>(folder: Folder<D>, s: State<D>, h: nat) {
    h <= |folder.files| && forall f :: f in s.executed <==> f in folder.files[..h]
  }

  /** No script is skipped: those executed are a prefix of the catalogue, and every script at or below
      the stored version, which no later run will select, is among them. */
  ghost predicate NoGap<D>(folder: Folder<D>, s: State<D>) {
    && (exists h: nat :: ExecutedPrefix(folder, s, h))
    && (forall f | f in folder.files && Compare(f.version, s.version) <= 0 :: f in s.executed)
  }

  /** What every state reached by crashing runs keeps. */
  ghost predicate Kept<D>(folder: Folder<D>, p: nat, h: nat, v0: string, s: State<D>) {
    && p <= StartOf(folder, s) <= h
    && ExecutedPrefix(folder, s, h)
    && OneName(folder.files, StartOf(folder, s), h - 1)
    && KnownName(folder.files, p, v0, s.version)
  }

  lemma ReadyLater<D(!new)>(folder: Folder<D>, p: nat, p': nat)
    requires Ready(folder, p) && p <= p'
    ensures Ready(folder, p')
  {
    hide Compare, Order;
    forall i: nat | p' <= i && i + 1 < |folder.files| ensures SafeAt(folder, p', i) {
      assert SafeAt(folder, p, i);
    }
  }

  /** One process from any state: it executes the block of files from its start to some e. */
  lemma OneRun<D(!new)>(folder: Folder<D>, k: nat, s: State<D>) returns (e: nat)
    requires Ready(folder, StartOf(folder, s))
    ensures Advances(folder, StartOf(folder, s), StartOf(folder, s), e, s.version, s.version, s, Run(folder, k, s))
    ensures Uninterrupted(folder, s).completed <==> Block(folder, folder.files[StartOf(folder, s)..], s.tables).Some?
  {
    hide Compare, Order, RunOps, Advances, OneName;
    var p, L := StartOf(folder, s), folder.files;
    SplitAtPos(L, s.version);
    e := Process(folder, p, p, s.version, s.version, k, s);
    var n := |Plan(L[p..], s.version)|;
    var e' := Process(folder, p, p, s.version, s.version, n, s);
    assert Uninterrupted(folder, s) == RunOps(folder, Plan(L[p..], s.version), n, s);
    if Uninterrupted(folder, s).completed {
      AdvancesToEnd(folder, p, e', s, Uninterrupted(folder, s));
    }
  }

  lemma AdvancesToEnd<D(!new)>(folder: Folder<D>, p: nat, e: nat, s: State<D>, out: Outcome<D>)
    requires Advances(folder, p, p, e, s.version, s.version, s, out) && out.completed
    ensures Block(folder, folder.files[p..], s.tables) == Some(out.s.tables)
    ensures out.s.version == if p == |folder.files| then s.version else folder.files[|folder.files| - 1].version
    ensures out.s.executed == s.executed + folder.files[p..]
  {
    assert folder.files[p..|folder.files|] == folder.files[p..];
  }

  lemma RunKeeps<D(!new)>(folder: Folder<D>, p: nat, h: nat, v0: string, k: nat, s: State<D>) returns (h': nat)
    requires Ready(folder, p) && Kept(folder, p, h, v0, s)
    ensures h <= h' && Kept(folder, p, h', v0, Run(folder, k, s).s)
    ensures StartOf(folder, s) <= StartOf(folder, Run(folder, k, s).s)
    ensures Run(folder, k, s).completed ==> h' == |folder.files|
  {
    hide Compare, Order, RunOps, Run, Pos, Block;
    var q, L := StartOf(folder, s), folder.files;
    ReadyLater(folder, p, q);
    var e := OneRun(folder, k, s);
    h' := if h >= e then h else e;
    var s' := Run(folder, k, s).s;
    assert s'.executed == s.executed + L[q..e];
    PrefixGrows(L, s.executed, q, h, e);
  }

  /** Executing a block that starts inside the executed prefix gives a prefix again. */
  lemma PrefixGrows(files: seq<File>, executed: seq<File>, q: nat, h: nat, e: nat)
    requires q <= h <= |files| && q <= e <= |files|
    requires forall f :: f in executed <==> f in files[..h]
    ensures forall f :: f in executed + files[q..e] <==> f in files[..if h >= e then h else e]
  {
    if h >= e {
      assert files[..h] == files[..q] + files[q..e] + files[e..h];
    } else {
      assert files[..e] == files[..h] + files[h..e] && files[q..e] == files[q..h] + files[h..e];
      assert files[..h] == files[..q] + files[q..h];
    }
  }

  lemma {:induction false} RunsKeep<D(!new)>(folder: Folder<D>, p: nat, h: nat, v0: string, ks: seq<nat>, s: State<D>)
    returns (h': nat)
    requires Ready(folder, p) && Kept(folder, p, h, v0, s)
    ensures h <= h' && Kept(folder, p, h', v0, Runs(folder, ks, s))
    ensures StartOf(folder, s) <= StartOf(folder, Runs(folder, ks, s))
    decreases |ks|
  {
    hide Compare, Order, Ready, Kept, Run, Pos;
    h' := h;
    if ks != [] {
      h' := RunKeeps(folder, p, h, v0, ks[0], s);
      h' := RunsKeep(folder, p, h', v0, ks[1..], Run(folder, ks[0], s).s);
    }
  }

  lemma StartKept<D(!new)>(folder: Folder<D>, t: D, v0: string)
    ensures Kept(folder, Pos(folder.files, v0), Pos(folder.files, v0), v0, Start(folder, t, v0))
  {
    hide Pos;
  }

  /** No script is skipped over all crashing runs, and no restart begins before an earlier one. */
  lemma NoGapInAnyRuns<D(!new)>(folder: Folder<D>, t: D, v0: string, ks: seq<nat>, k: nat)
    requires Ready(folder, Pos(folder.files, v0))
    ensures
      var s := Runs(folder, ks, Start(folder, t, v0));
      && NoGap(folder, s)
      && StartOf(folder, s) <= StartOf(folder, Run(folder, k, s).s)
  {
    hide Compare, Order, RunOps, Run, Pos;
    var p, L := Pos(folder.files, v0), folder.files;
    StartKept(folder, t, v0);
    var s := Runs(folder, ks, Start(folder, t, v0));
    var h := RunsKeep(folder, p, p, v0, ks, Start(folder, t, v0));
    var _ := RunKeeps(folder, p, h, v0, k, s);
    forall f | f in L && Compare(f.version, s.version) <= 0 ensures f in s.executed {
      var i :| 0 <= i < |L| && L[i] == f;
      PosSplits(L, s.version);
      assert L[..h][i] == f;
    }
  }

  /** Bounded replay: whenever a process dies, the next one re-executes files of one version name
      only, and beyond them at most the one file that was executed last. */
  lemma BoundedReplay<D(!new)>(folder: Folder<D>, t: D, v0: string, ks: seq<nat>)
    requires Ready(folder, Pos(folder.files, v0))
    ensures
      var s := Runs(folder, ks, Start(folder, t, v0));
      exists h: nat ::
        && ExecutedPrefix(folder, s, h)
        && StartOf(folder, s) <= h
        && OneName(folder.files, StartOf(folder, s), h - 1)
  {
    hide Compare, Order, Runs, Pos;
    StartKept(folder, t, v0);
    var p := Pos(folder.files, v0);
    var h := RunsKeep(folder, p, p, v0, ks, Start(folder, t, v0));
  }

  // ---- Exactly when no script is skipped ----

  ghost predicate NeverFails<D(!new)>(folder: Folder<D>) {
    forall f, t :: folder.exec(f, t).Some?
  }

  ghost predicate Distinct(files: seq<File>) {
    forall i, j | 0 <= i < j < |files| :: files[i] != files[j]
  }

  lemma FirstScript<D(!new)>(folder: Folder<D>, files: seq<File>, version: string, s: State<D>)
    returns (s1: State<D>)
    requires NeverFails(folder) && files != []
    ensures Do(folder, Apply(files[0]), s) == Some(s1) && s1.executed == s.executed + [files[0]]
    ensures folder.sets(files[0]).Some? ==> s1.version == folder.sets(files[0]).value
    ensures RunOps(folder, Plan(files, version), 1, s) == Outcome(s1, false)
    ensures version != files[0].version ==>
      RunOps(folder, Plan(files, version), 2, s) == Outcome(s1.(version := version), false)
  {
    s1 := Do(folder, Apply(files[0]), s).value;
    StepPlan(folder, files, version, 1, s);
    StepPlan(folder, files, version, 2, s);
    PlanNonempty(files[1..], files[0].version);
  }

  lemma PlanNonempty(files: seq<File>, version: string)
    ensures Plan(files, version) != []
  {
  }

  /** A death right after the script of file i, and one right after the version write that follows. */
  lemma {:induction false} Reach<D(!new)>(folder: Folder<D>, files: seq<File>, version: string, i: nat, s: State<D>)
    returns (k: nat, mid: State<D>)
    requires NeverFails(folder) && i < |files|
    ensures RunOps(folder, Plan(files, version), k, s) == Outcome(mid, false)
    ensures mid.executed == s.executed + files[..i + 1]
    ensures folder.sets(files[i]).Some? ==> mid.version == folder.sets(files[i]).value
    ensures
      var prev := if i == 0 then version else files[i - 1].version;
      prev != files[i].version ==>
        RunOps(folder, Plan(files, version), k + 1, s) == Outcome(mid.(version := prev), false)
    decreases i
  {
    hide RunOps, Do, Plan;
    var f, local := files[0], files[0].version;
    var s1 := FirstScript(folder, files, version, s);
    if i == 0 {
      k, mid := 1, s1;
      assert files[..1] == [f];
    } else {
      var used := if version == local then 1 else 2;
      k, mid := Reach(folder, files[1..], local, i - 1, if used == 1 then s1 else s1.(version := version));
      StepPlan(folder, files, version, k + used, s);
      StepPlan(folder, files, version, k + used + 1, s);
      k := k + used;
      assert files[..i + 1] == [f] + files[1..][..i];
    }
  }

  lemma ShowsGap<D(!new)>(folder: Folder<D>, s: State<D>, i: nat)
    requires i + 1 < |folder.files| && Distinct(folder.files)
    requires s.executed == folder.files[..i + 1]
    requires Compare(folder.files[i + 1].version, s.version) <= 0
    ensures !NoGap(folder, s)
  {
    hide Compare;
    assert folder.files[i + 1] !in s.executed;
  }

  lemma UnsafeSkips<D(!new)>(folder: Folder<D>, t: D, v0: string, i: nat)
    requires Sorted(folder.files) && Honest(folder, Pos(folder.files, v0))
    requires NeverFails(folder) && Distinct(folder.files)
    requires Pos(folder.files, v0) <= i && i + 1 < |folder.files|
    requires !SafeAt(folder, Pos(folder.files, v0), i)
    ensures exists k: nat :: !NoGap(folder, Run(folder, k, Start(folder, t, v0)).s)
  {
    hide Compare, Order, RunOps, NoGap, Do, Plan, Pos, NeverFails;
    var L, p, s := folder.files, Pos(folder.files, v0), Start(folder, t, v0);
    SplitAtPos(L, v0);
    var k, mid := Reach(folder, L[p..], v0, i - p, s);
    assert L[p..][i - p] == L[i];
    assert L[..p] + L[p..][..i - p + 1] == L[..i + 1];
    assert Run(folder, k, s).s == mid;
    CompareTotalPreorder(L[i].version, L[i + 1].version, v0);
    if folder.sets(L[i]).Some? && Compare(L[i].version, L[i + 1].version) >= 0 {
      ShowsGap(folder, mid, i);
    } else {
      assert L[p..][i - p - 1] == L[i - 1];
      CompareTotalPreorder(L[i - 1].version, L[i + 1].version, v0);
      var s' := mid.(version := L[i - 1].version);
      assert Run(folder, k + 1, s).s == s';
      ShowsGap(folder, s', i);
    }
  }

  /** From s, no schedule of deaths skips a script. */
  ghost predicate NeverSkips<D>(folder: Folder<D>, s: State<D>) {
    forall ks: seq<nat> :: NoGap(folder, Runs(folder, ks, s))
  }

  /** When no script fails, crashing runs skip no script whatever the deaths, exactly when the folder
      is safe from the first pending file on. */
  lemma NoGapExactly<D(!new)>(folder: Folder<D>, t: D, v0: string)
    requires Sorted(folder.files) && Honest(folder, Pos(folder.files, v0))
    requires NeverFails(folder) && Distinct(folder.files)
    ensures NeverSkips(folder, Start(folder, t, v0)) <==> SafeFrom(folder, Pos(folder.files, v0))
  {
    hide Compare, Order, RunOps, NoGap, SafeAt, Pos, Run, NeverFails;
    var p, s := Pos(folder.files, v0), Start(folder, t, v0);
    if SafeFrom(folder, p) {
      forall ks: seq<nat> ensures NoGap(folder, Runs(folder, ks, s)) {
        NoGapInAnyRuns(folder, t, v0, ks, 0);
      }
    } else {
      var i: nat :| p <= i && i + 1 < |folder.files| && !SafeAt(folder, p, i);
      UnsafeSkips(folder, t, v0, i);
      var k: nat :| !NoGap(folder, Run(folder, k, s).s);
      var ks: seq<nat> := [k];
      assert ks[1..] == [] && ks[0] == k;
      assert Runs(folder, ks, s) == Runs(folder, ks[1..], Run(folder, k, s).s) == Run(folder, k, s).s;
    }
  }

  /** With one name for each version, no script may set the version before the last file of its group:
      then the folder is safe from anywhere. */
  lemma PlainFolderSafe<D(!new)>(folder: Folder<D>, p: nat)
    requires Sorted(folder.files) && NoAlias(folder.files)
    requires forall i | 0 <= i && i + 1 < |folder.files| && folder.sets(folder.files[i]).Some? ::
      folder.files[i].version != folder.files[i + 1].version
    ensures SafeFrom(folder, p)
  {
    hide Compare;
    var L := folder.files;
    forall i: nat | p <= i && i + 1 < |L| ensures SafeAt(folder, p, i) {
      assert Order(L[i], L[i + 1]) <= 0;
      if i > p { assert Order(L[i - 1], L[i + 1]) <= 0 && Order(L[i - 1], L[i]) <= 0; }
      assert L[i] in L && L[i + 1] in L && (i > p ==> L[i - 1] in L);
      if i > p && Compare(L[i - 1].version, L[i + 1].version) == 0 {
        EqualVersionsContiguous(L, i - 1, i, i + 1);
      }
    }
  }

  // ---- Convergence ----

  /** Files whose versions compare equal have the same version name. */
  ghost predicate NoAlias(files: seq<File>) {
    forall f, g | f in files && g in files && Compare(f.version, g.version) == 0 :: f.version == g.version
  }

  /** Running a block again from its start, after any part of it ran, ends like running it once. */
  ghost predicate ReplaySafe<D(!new)>(folder: Folder<D>, p: nat) {
    forall i: nat, j: nat, t | p <= i <= j <= |folder.files| && Block(folder, folder.files[i..j], t).Some? ::
      Block(folder, folder.files[i..], Block(folder, folder.files[i..j], t).value) ==
          Block(folder, folder.files[i..], t)
  }

  /** What is left to do after the block from p to e, counted again from an earlier p', comes to the
      same tables. */
  lemma ReplayFrom<D(!new)>(folder: Folder<D>, p: nat, p': nat, e: nat, t: D, t': D)
    requires ReplaySafe(folder, p) && p <= p' <= e <= |folder.files|
    requires Block(folder, folder.files[p..e], t) == Some(t')
    ensures Block(folder, folder.files[p'..], t') == Block(folder, folder.files[p..], t)
  {
    var L := folder.files;
    assert L[p..e] == L[p..p'] + L[p'..e];
    assert L[p..] == L[p..p'] + L[p'..];
    BlockConcat(folder, L[p..p'], L[p'..e], t);
    BlockConcat(folder, L[p..p'], L[p'..], t);
  }

  /** The work that is left keeps leading to the same tables over all crashing runs. */
  lemma {:induction false} SameGoal<D(!new)>(folder: Folder<D>, p: nat, v0: string, ks: seq<nat>, s: State<D>)
    requires Ready(folder, p) && ReplaySafe(folder, p) && p <= StartOf(folder, s)
    requires KnownName(folder.files, p, v0, s.version)
    ensures
      var s' := Runs(folder, ks, s);
      && p <= StartOf(folder, s')
      && KnownName(folder.files, p, v0, s'.version)
      && Block(folder, folder.files[StartOf(folder, s')..], s'.tables) ==
          Block(folder, folder.files[StartOf(folder, s)..], s.tables)
    decreases |ks|
  {
    hide Compare, Order, Run, Pos, Block, OneName, SafeFrom, Honest;
    if ks != [] {
      var q := StartOf(folder, s);
      ReadyLater(folder, p, q);
      var e := OneRun(folder, ks[0], s);
      var s1 := Run(folder, ks[0], s).s;
      assert ReplaySafe(folder, q);
      ReplayFrom(folder, q, StartOf(folder, s1), e, s.tables, s1.tables);
      SameGoal(folder, p, v0, ks[1..], s1);
    }
  }

  lemma CompletedRun<D(!new)>(folder: Folder<D>, k: nat, s: State<D>)
    requires Ready(folder, StartOf(folder, s)) && Run(folder, k, s).completed
    ensures
      var p, n, s' := StartOf(folder, s), |folder.files|, Run(folder, k, s).s;
      && Block(folder, folder.files[p..], s.tables) == Some(s'.tables)
      && s'.executed == s.executed + folder.files[p..]
      && s'.version == if p == n then s.version else folder.files[n - 1].version
  {
    hide Ready, Run, Pos, Advances;
    var e := OneRun(folder, k, s);
    AdvancesToEnd(folder, StartOf(folder, s), e, s, Run(folder, k, s));
  }

  /** Crash convergence: whatever deaths came before, the pending work completes exactly when one
      uninterrupted run from the first state does, and a run that completes then leaves the tables and
      the stored version of that uninterrupted run. */
  lemma Converges<D(!new)>(folder: Folder<D>, s0: State<D>, ks: seq<nat>, k: nat)
    requires Ready(folder, StartOf(folder, s0)) && ReplaySafe(folder, StartOf(folder, s0))
    ensures Uninterrupted(folder, Runs(folder, ks, s0)).completed <==> Uninterrupted(folder, s0).completed
    ensures
      var last := Run(folder, k, Runs(folder, ks, s0));
      var once := Uninterrupted(folder, s0);
      last.completed ==>
        && once.completed
        && last.s.tables == once.s.tables
        && Compare(last.s.version, once.s.version) == 0
        && (NoAlias(folder.files[StartOf(folder, s0)..]) ==> last.s.version == once.s.version)
  {
    hide Compare, Order, Run, Pos, Block, OneName, SafeFrom, Honest, Advances, Runs, ReplaySafe;
    var p, L := StartOf(folder, s0), folder.files;
    var s := Runs(folder, ks, s0);
    SameGoal(folder, p, s0.version, ks, s0);
    ReadyLater(folder, p, StartOf(folder, s));
    var _ := OneRun(folder, 0, s);
    var _ := OneRun(folder, 0, s0);
    if Run(folder, k, s).completed {
      CompletedRun(folder, k, s);
      CompletedRun(folder, |Plan(Above(L, s0.version), s0.version)|, s0);
      SameLastVersion(folder, p, s0.version, s.version);
    }
  }

  /** A known version name with nothing pending above it is the last one, up to equal comparison. */
  lemma SameLastVersion<D(!new)>(folder: Folder<D>, p: nat, v0: string, v: string)
    requires Sorted(folder.files) && p == Pos(folder.files, v0) && KnownName(folder.files, p, v0, v)
    ensures
      var n := |folder.files|;
      var w := if Pos(folder.files, v) == n then v else folder.files[n - 1].version;
      var w0 := if p == n then v0 else folder.files[n - 1].version;
      && (p <= Pos(folder.files, v) ==> Compare(w, w0) == 0)
      && (p <= Pos(folder.files, v) && NoAlias(folder.files[p..]) ==> w == w0)
  {
    hide Compare, Order, Pos;
    var L, n := folder.files, |folder.files|;
    if p <= Pos(L, v) {
      var w0 := if p == n then v0 else L[n - 1].version;
      CompareTotalPreorder(w0, w0, w0);
      if Pos(L, v) == n && v != v0 {
        var i :| p <= i < n && L[i].version == v;
        PosSplits(L, v);
        LastIsMax(L, i);
        assert L[p..][i - p] == L[i] && L[p..][n - 1 - p] == L[n - 1];
        CompareTotalPreorder(v, L[n - 1].version, v);
      }
    }
  }

  lemma LastIsMax(files: seq<File>, i: nat)
    requires Sorted(files) && i < |files|
    ensures Compare(files[i].version, files[|files| - 1].version) <= 0
  {
    hide Compare;
    if i < |files| - 1 {
      assert Order(files[i], files[|files| - 1]) <= 0;
    } else {
      CompareTotalPreorder(files[i].version, files[i].version, files[i].version);
    }
  }

  // ---- Staged runs ----

  /** The same folder with a nearer target. */
  function Staged<D>(folder: Folder<D>, v1: string): Folder<D> {
    folder.(files := AtMost(folder.files, v1))
  }

  /** Two stages, to v1 and then to the folder's own target, complete exactly when one run to that
      target does, and they end in the same state after executing the same scripts in the same order.
      No file needs to have version v1 itself. */
  lemma StagesCompose<D(!new)>(folder: Folder<D>, v1: string, s: State<D>)
    requires Ready(folder, StartOf(folder, s))
    ensures
      var first := Uninterrupted(Staged(folder, v1), s);
      var second := Uninterrupted(folder, first.s);
      var once := Uninterrupted(folder, s);
      && (first.completed && second.completed <==> once.completed)
      && (once.completed ==> second.s == once.s)
  {
    hide Compare, Order, Run, Pos, Ready, Block, Uninterrupted, AtMost;
    var L, p := folder.files, StartOf(folder, s);
    var mid := if p <= Pos(L, v1) then Pos(L, v1) else p;
    var first := Uninterrupted(Staged(folder, v1), s);
    TwoBlocks(folder, p, mid, s.tables);
    WholeRun(folder, s);
    FirstStage(folder, v1, s);
    if first.completed {
      ReadyLater(folder, p, mid);
      WholeRun(folder, first.s);
      SplitExecuted(L, p, mid, s.executed);
    }
  }

  lemma SplitExecuted(files: seq<File>, p: nat, mid: nat, executed: seq<File>)
    requires p <= mid <= |files|
    ensures (executed + files[p..mid]) + files[mid..] == executed + files[p..]
  {
    assert files[p..] == files[p..mid] + files[mid..];
  }

  lemma TwoBlocks<D>(folder: Folder<D>, p: nat, mid: nat, t: D)
    requires p <= mid <= |folder.files|
    ensures Block(folder, folder.files[p..], t) ==
              match Block(folder, folder.files[p..mid], t)
              case None => None
              case Some(t') => Block(folder, folder.files[mid..], t')
  {
    assert folder.files[p..] == folder.files[p..mid] + folder.files[mid..];
    BlockConcat(folder, folder.files[p..mid], folder.files[mid..], t);
  }

  /** One uninterrupted run, in terms of blocks. */
  lemma WholeRun<D(!new)>(folder: Folder<D>, s: State<D>)
    requires Ready(folder, StartOf(folder, s))
    ensures
      var p, n, out := StartOf(folder, s), |folder.files|, Uninterrupted(folder, s);
      && (out.completed <==> Block(folder, folder.files[p..], s.tables).Some?)
      && (out.completed ==> out.s == State(
            Block(folder, folder.files[p..], s.tables).value,
            if p == n then s.version else folder.files[n - 1].version,
            s.executed + folder.files[p..]))
  {
    hide Ready, Run, Pos, Advances, Block;
    var _ := OneRun(folder, 0, s);
    if Uninterrupted(folder, s).completed {
      CompletedRun(folder, |Plan(Above(folder.files, s.version), s.version)|, s);
    }
  }

  lemma WholeEnd<D(!new)>(folder: Folder<D>, s: State<D>)
    requires Ready(folder, StartOf(folder, s)) && Uninterrupted(folder, s).completed
    ensures
      var p, n, out := StartOf(folder, s), |folder.files|, Uninterrupted(folder, s).s;
      && Block(folder, folder.files[p..], s.tables) == Some(out.tables)
      && out.version == if p == n then s.version else folder.files[n - 1].version
  {
    hide Ready, Pos, Block, Uninterrupted;
    WholeRun(folder, s);
  }

  lemma FirstStage<D(!new)>(folder: Folder<D>, v1: string, s: State<D>)
    requires Ready(folder, StartOf(folder, s))
    ensures
      var L, p, first := folder.files, StartOf(folder, s), Uninterrupted(Staged(folder, v1), s);
      var mid := if p <= Pos(L, v1) then Pos(L, v1) else p;
      && (first.completed <==> Block(folder, L[p..mid], s.tables).Some?)
      && (first.completed ==>
            && first.s.tables == Block(folder, L[p..mid], s.tables).value
            && first.s.executed == s.executed + L[p..mid]
            && first.s.version == (if p == mid then s.version else L[mid - 1].version)
            && StartOf(folder, first.s) == mid)
  {
    hide Honest, SafeFrom, Run, Pos, Block, Compare, Order, Sorted, Uninterrupted;
    var stage, L, p, m := Staged(folder, v1), folder.files, StartOf(folder, s), Pos(folder.files, v1);
    SplitAtPos(L, v1);
    StagePos(L, s.version, v1);
    StageReady(folder, v1, s);
    WholeRun(stage, s);
    var mid := if p <= m then m else p;
    var q := StartOf(stage, s);
    assert stage.files[q..] == L[p..mid];
    SameEffect(stage, folder, L[p..mid], s.tables);
    if Uninterrupted(stage, s).completed {
      StageEnd(L, s.version, v1, Uninterrupted(stage, s).s.version);
    }
  }

  lemma {:induction false} SameEffect<D(!new)>(a: Folder<D>, b: Folder<D>, files: seq<File>, t: D)
    requires forall f, d | f in files :: a.exec(f, d) == b.exec(f, d)
    ensures Block(a, files, t) == Block(b, files, t)
  {
    if files != [] {
      assert files[0] in files && a.exec(files[0], t) == b.exec(files[0], t);
    }
    if files != [] && a.exec(files[0], t).Some? {
      SameEffect(a, b, files[1..], a.exec(files[0], t).value);
    }
  }

  lemma StageReady<D(!new)>(folder: Folder<D>, v1: string, s: State<D>)
    requires Ready(folder, StartOf(folder, s))
    ensures Ready(Staged(folder, v1), StartOf(Staged(folder, v1), s))
  {
    hide Compare, Order, Pos;
    var stage, L, m := Staged(folder, v1), folder.files, Pos(folder.files, v1);
    SplitAtPos(L, v1);
    StagePos(L, s.version, v1);
    var q := StartOf(stage, s);
    forall i: nat | q <= i && i + 1 < |stage.files| ensures SafeAt(stage, q, i) {
      assert SafeAt(folder, StartOf(folder, s), i);
    }
  }

  /** The start of the first stage. */
  lemma StagePos(files: seq<File>, v: string, v1: string)
    requires Sorted(files)
    ensures
      var m := Pos(files, v1);
      Pos(files[..m], v) == if Pos(files, v) <= m then Pos(files, v) else m
  {
    hide Compare, Order;
    var m := Pos(files, v1);
    PosSplits(files, v);
    assert Sorted(files[..m]);
    PosSplits(files[..m], v);
    var q := Pos(files[..m], v);
    if q < m { assert files[..m][q] == files[q]; }
    if q > 0 { assert files[..m][q - 1] == files[q - 1]; }
  }

  /** The second stage starts where the first ended. */
  lemma StageEnd(files: seq<File>, v: string, v1: string, w: string)
    requires Sorted(files)
    requires
      var m := Pos(files, v1);
      w == if Pos(files[..m], v) == m then v else files[m - 1].version
    ensures Pos(files, w) == if Pos(files, v) <= Pos(files, v1) then Pos(files, v1) else Pos(files, v)
  {
    hide Compare, Order, Pos, Sorted;
    var m := Pos(files, v1);
    StagePos(files, v, v1);
    if Pos(files[..m], v) < m {
      PosOfFile(files, m - 1);
      PosMonotone(files, w, v1);
    }
  }

  lemma SamePos(files: seq<File>, v: string, w: string)
    requires Sorted(files) && Compare(v, w) == 0
    ensures Pos(files, v) == Pos(files, w)
  {
    hide Compare, Order, Pos, Sorted;
    CompareTotalPreorder(v, w, v);
    PosMonotone(files, v, w);
    PosMonotone(files, w, v);
  }

  /** Two states with the same tables and equal versions lead uninterrupted runs to the same end. */
  lemma SameEnd<D(!new)>(folder: Folder<D>, s: State<D>, s': State<D>)
    requires Ready(folder, StartOf(folder, s)) && s.tables == s'.tables && Compare(s.version, s'.version) == 0
    ensures StartOf(folder, s) == StartOf(folder, s')
    ensures
      var out, out' := Uninterrupted(folder, s), Uninterrupted(folder, s');
      && out.completed == out'.completed
      && (out.completed ==>
            && out.s.tables == out'.s.tables
            && Compare(out.s.version, out'.s.version) == 0
            && (s.version == s'.version ==> out.s.version == out'.s.version))
  {
    SamePos(folder.files, s.version, s'.version);
    hide Compare, Order, Pos, Block, Uninterrupted, Ready;
    WholeRun(folder, s);
    WholeRun(folder, s');
    if |folder.files| > 0 {
      var v := folder.files[|folder.files| - 1].version;
      CompareTotalPreorder(v, v, v);
    }
  }

  lemma AliasesLater(files: seq<File>, p: nat)
    requires NoAlias(files) && p <= |files|
    ensures NoAlias(files[p..])
  {
    hide Compare;
  }

  lemma StageAliases<D(!new)>(folder: Folder<D>, v1: string)
    requires NoAlias(folder.files)
    ensures NoAlias(Staged(folder, v1).files)
  {
    hide Compare;
    AtMostMembers(folder.files, v1);
  }

  /** Staging and convergence together: crashing runs to v1 that finally complete, and then crashing
      runs to the folder's target that finally complete, leave the tables and the version of one
      uninterrupted run. */
  lemma StagesConverge<D(!new)>(folder: Folder<D>, v1: string, s0: State<D>, ks1: seq<nat>, k1: nat,
                                ks2: seq<nat>, k2: nat)
    requires Ready(folder, StartOf(folder, s0)) && ReplaySafe(folder, StartOf(folder, s0))
    requires ReplaySafe(Staged(folder, v1), StartOf(Staged(folder, v1), s0))
    requires Run(Staged(folder, v1), k1, Runs(Staged(folder, v1), ks1, s0)).completed
    ensures
      var mid := Run(Staged(folder, v1), k1, Runs(Staged(folder, v1), ks1, s0)).s;
      var last := Run(folder, k2, Runs(folder, ks2, mid));
      var once := Uninterrupted(folder, s0);
      last.completed ==>
        && once.completed
        && last.s.tables == once.s.tables
        && Compare(last.s.version, once.s.version) == 0
        && (NoAlias(folder.files) ==> last.s.version == once.s.version)
  {
    hide Compare, Order, Run, Pos, Block, SafeFrom, Honest, Sorted, Uninterrupted, Runs, ReplaySafe, NoAlias, Staged;
    var stage := Staged(folder, v1);
    var first := Uninterrupted(stage, s0);
    var mid := Run(stage, k1, Runs(stage, ks1, s0)).s;
    var last := Run(folder, k2, Runs(folder, ks2, mid));
    var once := Uninterrupted(folder, s0);
    StageReady(folder, v1, s0);
    Converges(stage, s0, ks1, k1);
    if NoAlias(folder.files) {
      StageAliases(folder, v1);
      AliasesLater(stage.files, StartOf(stage, s0));
      AliasesLater(folder.files, StartOf(folder, mid));
    }
    FirstStage(folder, v1, s0);
    ReadyLater(folder, StartOf(folder, s0), StartOf(folder, first.s));
    CompareTotalPreorder(mid.version, first.s.version, mid.version);
    SameEnd(folder, first.s, mid);
    ReplayLater(folder, StartOf(folder, s0), StartOf(folder, mid));
    Converges(folder, mid, ks2, k2);
    StagesCompose(folder, v1, s0);
    if last.completed {
      var second, direct := Uninterrupted(folder, first.s), Uninterrupted(folder, mid);
      CompareTotalPreorder(second.s.version, direct.s.version, second.s.version);
      EqualTwice(last.s.version, direct.s.version, second.s.version);
    }
  }

  lemma EqualTwice(a: string, b: string, c: string)
    requires Compare(a, b) == 0 && Compare(b, c) == 0
    ensures Compare(a, c) == 0
  {
    hide Compare;
    CompareTotalPreorder(a, b, c);
    CompareTotalPreorder(c, b, a);
    CompareTotalPreorder(b, c, a);
    CompareTotalPreorder(a, c, a);
  }

  lemma ReplayLater<D(!new)>(folder: Folder<D>, p: nat, p': nat)
    requires ReplaySafe(folder, p) && p <= p'
    ensures ReplaySafe(folder, p')
  {
  }

  /** A run after a completed one executes no script and changes nothing. */
  lemma RerunIdle<D(!new)>(folder: Folder<D>, s: State<D>, j: nat, k: nat)
    requires Ready(folder, StartOf(folder, s)) && Run(folder, j, s).completed
    ensures Run(folder, k, Run(folder, j, s).s).s == Run(folder, j, s).s
  {
    hide Compare, Order, Run, Pos;
    var L, n, s' := folder.files, |folder.files|, Run(folder, j, s).s;
    CompletedRun(folder, j, s);
    if StartOf(folder, s) < n {
      PosOfFile(L, n - 1);
    }
    assert StartOf(folder, s') == n;
    IdleRun(folder, k, s');
  }

  lemma IdleRun<D(!new)>(folder: Folder<D>, k: nat, s: State<D>)
    requires Sorted(folder.files) && StartOf(folder, s) == |folder.files|
    ensures Run(folder, k, s).s == s
  {
    hide Compare, Order, Pos;
    SplitAtPos(folder.files, s.version);
    LastStore(folder, s.version, k, s);
  }

  // ---- A folder with more files in front ----

  /** The folder holds some older files and then those of another folder, with the same effects. */
  ghost predicate Extends<D(!new)>(folder: Folder<D>, older: seq<File>, own: Folder<D>) {
    && folder.files == older + own.files
    && (forall f | f in own.files :: folder.sets(f) == own.sets(f))
    && (forall f, d | f in own.files :: folder.exec(f, d) == own.exec(f, d))
  }

  lemma ExtendsFile<D(!new)>(folder: Folder<D>, older: seq<File>, own: Folder<D>, i: nat)
    requires Extends(folder, older, own) && |older| <= i < |folder.files|
    ensures |folder.files| == |older| + |own.files|
    ensures folder.files[i] == own.files[i - |older|]
    ensures folder.sets(folder.files[i]) == own.sets(own.files[i - |older|])
  {
    assert own.files[i - |older|] in own.files;
  }

  lemma ExtendsSafeAt<D(!new)>(folder: Folder<D>, older: seq<File>, own: Folder<D>, p: nat, i: nat)
    requires Extends(folder, older, own) && p <= i && i + 1 < |own.files|
    requires SafeAt(own, p, i)
    ensures |folder.files| == |older| + |own.files| && SafeAt(folder, |older| + p, |older| + i)
  {
    hide Compare, Extends;
    ExtendsCount(folder, older, own);
    ExtendsFile(folder, older, own, |older| + i);
    ExtendsFile(folder, older, own, |older| + i + 1);
    if i > p { ExtendsFile(folder, older, own, |older| + i - 1); }
  }

  lemma ExtendsSafe<D(!new)>(folder: Folder<D>, older: seq<File>, own: Folder<D>, p: nat)
    requires Extends(folder, older, own) && SafeFrom(own, p)
    ensures SafeFrom(folder, |older| + p)
  {
    hide SafeAt, Extends;
    ExtendsCount(folder, older, own);
    var q := |older| + p;
    forall i: nat | q <= i && i + 1 < |folder.files| ensures SafeAt(folder, q, i) {
      ExtendsSafeAt(folder, older, own, p, i - |older|);
    }
  }

  lemma ExtendsHonest<D(!new)>(folder: Folder<D>, older: seq<File>, own: Folder<D>, p: nat)
    requires Extends(folder, older, own) && Honest(own, p)
    ensures Honest(folder, |older| + p)
  {
    hide Extends;
    forall i | |older| + p <= i < |folder.files| && folder.sets(folder.files[i]).Some?
      ensures folder.sets(folder.files[i]).value == folder.files[i].version
    {
      ExtendsCount(folder, older, own);
      ExtendsFile(folder, older, own, i);
    }
  }

  lemma ExtendsNames<D(!new)>(folder: Folder<D>, older: seq<File>, own: Folder<D>, p: nat)
    requires Extends(folder, older, own) && p <= |own.files| && NoAlias(own.files)
    ensures |folder.files| == |older| + |own.files| && NoAlias(folder.files[|older| + p..])
  {
    hide NoAlias;
    assert folder.files[|older| + p..] == own.files[p..];
    AliasesLater(own.files, p);
  }

  /** From one of its own files on, the longer folder is as ready as the shorter one. */
  lemma ExtendsReady<D(!new)>(folder: Folder<D>, older: seq<File>, own: Folder<D>, p: nat)
    requires Extends(folder, older, own) && Sorted(folder.files) && p <= |own.files| && Ready(own, p)
    ensures |folder.files| == |older| + |own.files| && Ready(folder, |older| + p)
  {
    hide Extends, Sorted, Honest, SafeFrom;
    ExtendsCount(folder, older, own);
    ExtendsHonest(folder, older, own, p);
    ExtendsSafe(folder, older, own, p);
  }

  lemma ExtendsBlock<D(!new)>(folder: Folder<D>, older: seq<File>, own: Folder<D>, i: nat, j: nat, t: D)
    requires Extends(folder, older, own) && i <= j <= |own.files|
    ensures |folder.files| == |older| + |own.files|
    ensures Block(folder, folder.files[|older| + i..|older| + j], t) == Block(own, own.files[i..j], t)
  {
    hide Block;
    var files := own.files[i..j];
    assert folder.files[|older| + i..|older| + j] == files;
    assert forall f | f in files :: f in own.files;
    SameEffect(folder, own, files, t);
  }

  lemma ExtendsRest<D(!new)>(folder: Folder<D>, older: seq<File>, own: Folder<D>, i: nat, t: D)
    requires Extends(folder, older, own) && i <= |own.files|
    ensures |folder.files| == |older| + |own.files|
    ensures Block(folder, folder.files[|older| + i..], t) == Block(own, own.files[i..], t)
  {
    hide Block;
    var files := own.files[i..];
    assert folder.files[|older| + i..] == files;
    assert forall f | f in files :: f in own.files;
    SameEffect(folder, own, files, t);
  }

  lemma ExtendsReplay<D(!new)>(folder: Folder<D>, older: seq<File>, own: Folder<D>, i: nat, j: nat, t: D)
    requires Extends(folder, older, own) && i <= j <= |own.files| && ReplaySafe(own, i)
    ensures |folder.files| == |older| + |own.files|
    ensures
      var first, rest := folder.files[|older| + i..|older| + j], folder.files[|older| + i..];
      Block(folder, first, t).Some? ==> Block(folder, rest, Block(folder, first, t).value) == Block(folder, rest, t)
  {
    hide Block, Extends;
    ExtendsBlock(folder, older, own, i, j, t);
    ExtendsRest(folder, older, own, i, t);
    if Block(own, own.files[i..j], t).Some? {
      ExtendsRest(folder, older, own, i, Block(own, own.files[i..j], t).value);
    }
  }

  lemma ExtendsReplaySafe<D(!new)>(folder: Folder<D>, older: seq<File>, own: Folder<D>, p: nat)
    requires Extends(folder, older, own) && ReplaySafe(own, p)
    ensures ReplaySafe(folder, |older| + p)
  {
    ExtendsCount(folder, older, own);
    hide Block, Extends;
    var q, m := |older| + p, |older|;
    forall i: nat, j: nat, t | q <= i <= j <= |folder.files| && Block(folder, folder.files[i..j], t).Some?
      ensures Block(folder, folder.files[i..], Block(folder, folder.files[i..j], t).value) ==
              Block(folder, folder.files[i..], t)
    {
      ReplayLater(own, p, i - m);
      ExtendsReplay(folder, older, own, i - m, j - m, t);
    }
  }

  /** An uninterrupted run completes exactly when the pending scripts succeed. */
  lemma CompletesWhen<D(!new)>(folder: Folder<D>, s: State<D>)
    requires Ready(folder, StartOf(folder, s))
    ensures Uninterrupted(folder, s).completed <==> Block(folder, folder.files[StartOf(folder, s)..], s.tables).Some?
  {
    hide Ready, Run, Pos, Block, Advances;
    var _ := OneRun(folder, 0, s);
  }

  lemma ExtendsCompletes<D(!new)>(folder: Folder<D>, older: seq<File>, own: Folder<D>, i: nat, s: State<D>)
    requires Extends(folder, older, own) && Ready(folder, StartOf(folder, s))
    requires StartOf(folder, s) == |older| + i
    ensures i <= |own.files|
    ensures Uninterrupted(folder, s).completed <==> Block(own, own.files[i..], s.tables).Some?
  {
    hide *;
    ExtendsCount(folder, older, own);
    CompletesWhen(folder, s);
    ExtendsRest(folder, older, own, i, s.tables);
  }

  lemma ExtendsCount<D(!new)>(folder: Folder<D>, older: seq<File>, own: Folder<D>)
    requires Extends(folder, older, own)
    ensures |folder.files| == |older| + |own.files|
  {
  }
}
