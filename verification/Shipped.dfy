/** The shipped scripts as a folder for the migration runs. */
module Shipped {
  import opened Strings
  import opened Versions
  import opened Files
  import opened Runner
  import opened Recovery
  import opened Sql
  import opened Scripts
  import opened Completion

  const VERSIONS: seq<string> := [
    "0.0.9", "0.0.10", "0.0.11", "0.0.12", "0.0.13", "0.0.14", "0.0.15", "0.0.16", "0.0.17", "0.0.18"]

  const NAMES: seq<string> := [
    "1-add-schema-tables.sql", "1-add-schema-indexes.sql", "1-add-type-name-columns.sql",
    "1-add-catalog-metadata-columns.sql", "1-reset-schema-metadata.sql", "1-reset-catalogs-and-system-types.sql",
    "1-fix-update-system-catalog.sql", "1-update_module_core_catalog_dep.sql",
    "1-add-subscription-root-to-modules.sql", "1-add-can-impersonate.sql"]

  function PathOf(root: string, i: nat): string
    requires i < 10
  {
    root + "/" + VERSIONS[i] + "/" + NAMES[i]
  }

  /** The index of a version among the shipped ones, from i on. */
  function Find(v: string, i: nat): (r: nat)
    requires i <= 10
    ensures i <= r <= 10
    decreases 10 - i
  {
    if i == 10 || VERSIONS[i] == v then i else Find(v, i + 1)
  }

  /** The first n shipped files below a root, as after the choice of a target. The scripts from 0.0.11
      on write their own version. */
  function ShippedFolder(root: string, n: nat): Folder<Db>
    requires n <= 10
  {
    Folder(
      seq(n, i requires 0 <= i < n => File(PathOf(root, i), VERSIONS[i])),
      (f: File, d: Db) =>
        var i := Find(f.version, 0);
        if i < 10 && |SCRIPTS| == 10 then ExecAll(SCRIPTS[i], d) else None,
      (f: File) => if 2 <= Find(f.version, 0) < 10 then Some(f.version) else None)
  }

  lemma TwoDigits(v: string, c: char)
    requires IsDigit(c) && v == ['1', c]
    ensures Atoi(v) == 10 + Digit(c)
  {
    assert v[1..] == [c] && [c][1..] == [];
    assert ParseDigits([c], 1) == ParseDigits([], 10 + Digit(c));
    assert ParseDigits(v, 0) == ParseDigits([c], 1);
  }

  lemma OneDigit(v: string, c: char)
    requires IsDigit(c) && v == [c]
    ensures Atoi(v) == Digit(c)
  {
    assert v[1..] == [];
    assert ParseDigits(v, 0) == ParseDigits([], Digit(c)) == Number(Digit(c));
  }

  lemma ThreeParts(v: string, last: string)
    requires v == "0.0." + last && '.' !in last
    ensures Key(v) == [0, 0, Atoi(last)]
  {
    SplitNoSep(last, '.');
    SplitCons("0", last, '.');
    SplitCons("0", "0" + ['.'] + last, '.');
    assert v == "0" + ['.'] + ("0" + ['.'] + last);
    OneDigit("0", '0');
    assert Split(v, '.') == ["0", "0", last];
    assert ["0", "0", last][1..] == ["0", last] && ["0", last][1..] == [last] && [last][1..] == [];
  }

  lemma KeyOfTeen(v: string, c: char)
    requires IsDigit(c) && v == "0.0." + ['1', c]
    ensures Key(v) == [0, 0, 10 + Digit(c)]
  {
    TwoDigits(['1', c], c);
    ThreeParts(v, ['1', c]);
  }

  /** The keys of the shipped versions. */
  lemma ShippedKey(i: nat)
    requires i < 10
    ensures Key(VERSIONS[i]) == [0, 0, 9 + i]
  {
    hide Key;
    if i == 0 { KeyOfNine(); }
    else if i == 1 { KeyOfTeen("0.0.10", '0'); }
    else if i == 2 { KeyOfTeen("0.0.11", '1'); }
    else if i == 3 { KeyOfTeen("0.0.12", '2'); }
    else if i == 4 { KeyOfTeen("0.0.13", '3'); }
    else if i == 5 { KeyOfTeen("0.0.14", '4'); }
    else if i == 6 { KeyOfTeen("0.0.15", '5'); }
    else if i == 7 { KeyOfTeen("0.0.16", '6'); }
    else if i == 8 { KeyOfTeen("0.0.17", '7'); }
    else { KeyOfTeen("0.0.18", '8'); }
  }

  lemma KeyOfNine()
    ensures Key("0.0.9") == [0, 0, 9]
  {
    OneDigit("9", '9');
    ThreeParts("0.0.9", "9");
  }

  lemma ShippedOrder(i: nat, j: nat)
    requires i < j < 10
    ensures Compare(VERSIONS[i], VERSIONS[j]) < 0
  {
    ShippedKey(i);
    ShippedKey(j);
    var k, l := [0, 0, 9 + i], [0, 0, 9 + j];
    assert CmpFrom(k, l, 2) == -1;
    CmpPast(k, l, 1);
    CmpPast(k, l, 0);
  }

  lemma {:induction false} FindShipped(i: nat, j: nat)
    requires j <= i < 10
    ensures Find(VERSIONS[i], j) == i
    decreases 10 - j
  {
    hide Compare;
    if j < i {
      ShippedOrder(j, i);
      CompareTotalPreorder(VERSIONS[j], VERSIONS[j], VERSIONS[j]);
      FindShipped(i, j + 1);
    }
  }

  /** Each shipped file is discovered under its version. */
  lemma ShippedVersions(root: string, i: nat)
    requires i < 10
    ensures VersionOf(root, PathOf(root, i)) == VERSIONS[i]
  {
    hide VersionOf;
    var v := VERSIONS[i];
    assert v != "" && '/' !in v && v[|v| - 1] !in ".sql";
    VersionOfLayout(root, v, NAMES[i]);
  }

  function ShippedPaths(root: string): seq<string> {
    seq(10, i requires 0 <= i < 10 => PathOf(root, i))
  }

  /** The first n shipped versions are those up to the target. */
  ghost predicate UpTo(target: string, n: nat) {
    n <= 10 && forall i: nat | i < 10 :: i < n <==> WithinTarget(VERSIONS[i], target)
  }

  lemma WithinBelow(i: nat, j: nat, target: string)
    requires i <= j < 10 && WithinTarget(VERSIONS[j], target)
    ensures WithinTarget(VERSIONS[i], target)
  {
    hide Compare;
    if i < j { ShippedOrder(i, j); }
    CompareTotalPreorder(VERSIONS[i], VERSIONS[j], target);
  }

  /** Every target, also none at all, selects the first n shipped files for some n. */
  lemma TargetCount(target: string, i: nat) returns (n: nat)
    requires i <= 10 && forall k: nat | k < i :: WithinTarget(VERSIONS[k], target)
    ensures UpTo(target, n)
    ensures target == "" ==> n == 10
    decreases 10 - i
  {
    VersionsCount();
    if target == "" { NoTarget(); }
    hide VERSIONS, Compare, WithinTarget;
    if i < 10 && WithinTarget(VERSIONS[i], target) {
      n := TargetCount(target, i + 1);
    } else {
      n := i;
      forall k: nat | i <= k < 10 ensures !WithinTarget(VERSIONS[k], target) {
        if WithinTarget(VERSIONS[k], target) { WithinBelow(i, k, target); }
      }
      assert target == "" ==> i == 10;
    }
  }

  lemma VersionsCount()
    ensures |VERSIONS| == 10
  {
  }

  lemma NoTarget()
    ensures forall v :: WithinTarget(v, "")
  {
  }

  /** The shipped files, walked in version order. */
  lemma {:induction false} WalkShipped(root: string, target: string, n: nat, i: nat)
    requires UpTo(target, n) && i <= 10
    ensures AllWithin(ShippedPaths(root)[i..], root, target) == ShippedFolder(root, n).files[if i < n then i else n..]
    decreases 10 - i
  {
    hide PathOf, VERSIONS, VersionOf, WithinTarget, Find;
    var paths, files := ShippedPaths(root), ShippedFolder(root, n).files;
    if i < 10 {
      assert paths[i..][1..] == paths[i + 1..];
      ShippedVersions(root, i);
      WalkShipped(root, target, n, i + 1);
      if i < n { assert files[i..] == [files[i]] + files[i + 1..]; }
    }
  }

  /** The files of an older release: their versions are below 0.0.9. */
  ghost predicate AllOlder(older: seq<File>) {
    forall f | f in older :: Compare(f.version, VERSIONS[0]) < 0
  }

  lemma OlderBelow(f: File, root: string, n: nat, k: nat)
    requires k < n <= 10 && Compare(f.version, VERSIONS[0]) < 0
    ensures |ShippedFolder(root, n).files| == n
    ensures Order(f, ShippedFolder(root, n).files[k]) <= 0
  {
    hide Compare, PathOf, Find;
    if k > 0 { ShippedOrder(0, k); }
    CompareTotalPreorder(f.version, VERSIONS[0], VERSIONS[k]);
    CompareTotalPreorder(VERSIONS[0], VERSIONS[0], VERSIONS[0]);
  }

  lemma OlderFirst(older: seq<File>, root: string, n: nat)
    requires n <= 10 && Sorted(older) && AllOlder(older)
    ensures Sorted(older + ShippedFolder(root, n).files)
  {
    ShippedCount(root, n);
    ShippedReady(root, n, 0);
    hide Order, ShippedFolder, Compare, VERSIONS, SafeFrom, Honest, NoAlias;
    var files := ShippedFolder(root, n).files;
    var all := older + files;
    forall i, j | 0 <= i < j < |all| ensures Order(all[i], all[j]) <= 0 {
      if i < |older| <= j {
        assert all[i] in older;
        OlderBelow(all[i], root, n, j - |older|);
      } else if i >= |older| {
        assert all[i] == files[i - |older|] && all[j] == files[j - |older|];
      }
    }
  }

  /** A folder that holds the ten shipped files and files of older releases, walked in any order with
      any target or none, has as its catalogue the older files up to the target and then the shipped
      ones up to it. */
  lemma ShippedCatalogue(paths: seq<string>, oldPaths: seq<string>, root: string, target: string) returns (n: nat)
    requires multiset(paths) == multiset(oldPaths) + multiset(ShippedPaths(root))
    requires AllOlder(AllWithin(oldPaths, root, target))
    ensures UpTo(target, n) && (target == "" ==> n == 10)
    ensures Catalogue(paths, root, target) == Catalogue(oldPaths, root, target) + ShippedFolder(root, n).files
  {
    hide PathOf, VERSIONS, VersionOf, WithinTarget, Find, Sorted, ShippedFolder, ShippedPaths, AllWithin, Compare, UpTo;
    n := TargetCount(target, 0);
    BoundedCount(target, n);
    var older, files, walk := Catalogue(oldPaths, root, target), ShippedFolder(root, n).files, ShippedPaths(root);
    SortSorted(AllWithin(oldPaths, root, target));
    WalkShipped(root, target, n, 0);
    assert walk[0..] == walk && files[0..] == files;
    forall f: File ensures multiset(older + files)[f] == CountWithin(paths, root, target, f) {
      WithinCount(walk, root, target, f);
      WithinCount(oldPaths, root, target, f);
    }
    OlderFirst(older, root, n);
    CatalogueIs(paths, root, target, older + files);
  }

  lemma BoundedCount(target: string, n: nat)
    requires UpTo(target, n)
    ensures n <= 10
  {
  }

  /** The shipped folder meets what the runs need of it, from any start. */
  lemma ShippedReady(root: string, n: nat, p: nat)
    requires n <= 10
    ensures Ready(ShippedFolder(root, n), p) && NoAlias(ShippedFolder(root, n).files)
  {
    hide Compare, Find, PathOf, VERSIONS;
    var folder := ShippedFolder(root, n);
    var L := folder.files;
    forall i, j | 0 <= i < j < n
      ensures Compare(L[i].version, L[j].version) < 0 && Compare(L[j].version, L[i].version) > 0
    {
      ShippedOrder(i, j);
      CompareTotalPreorder(L[i].version, L[j].version, L[i].version);
    }
    forall i: nat | p <= i && i + 1 < |L| ensures SafeAt(folder, p, i) {
    }
  }

  lemma {:induction false} ShippedBlock(root: string, n: nat, i: nat, j: nat, d: Db)
    requires i <= j <= n <= 10 && |SCRIPTS| == 10
    ensures Block(ShippedFolder(root, n), ShippedFolder(root, n).files[i..j], d) == ExecAll(Flatten(SCRIPTS[i..j]), d)
    decreases j - i
  {
    hide SCRIPTS, VERSIONS, PathOf, Find;
    var folder := ShippedFolder(root, n);
    var fs := folder.files[i..j];
    if i < j {
      FindShipped(i, 0);
      assert fs[1..] == folder.files[i + 1..j] && SCRIPTS[i..j][1..] == SCRIPTS[i + 1..j];
      ExecConcat(SCRIPTS[i], Flatten(SCRIPTS[i + 1..j]), d);
      if ExecAll(SCRIPTS[i], d).Some? {
        ShippedBlock(root, n, i + 1, j, ExecAll(SCRIPTS[i], d).value);
      }
    }
  }

  lemma ReplayOnce(root: string, n: nat, i: nat, j: nat, d: Db)
    requires i <= j <= n <= 10 && |SCRIPTS| == 10
    requires Block(ShippedFolder(root, n), ShippedFolder(root, n).files[i..j], d).Some?
    ensures
      var folder := ShippedFolder(root, n);
      var L := folder.files;
      Block(folder, L[i..], Block(folder, L[i..j], d).value) == Block(folder, L[i..], d)
  {
    hide SCRIPTS, ExecAll, Flatten, Block;
    var folder := ShippedFolder(root, n);
    var L := folder.files;
    var d1 := Block(folder, L[i..j], d).value;
    ShippedBlock(root, n, i, j, d);
    ShippedBlock(root, n, i, j, d1);
    BlockRepeats(i, j, d);
    assert L[i..] == L[i..j] + L[j..];
    BlockConcat(folder, L[i..j], L[j..], d);
    BlockConcat(folder, L[i..j], L[j..], d1);
  }

  /** The shipped scripts are replay-safe, whatever the database. */
  lemma ShippedReplaySafe(root: string, n: nat, p: nat)
    requires n <= 10
    ensures ReplaySafe(ShippedFolder(root, n), p)
  {
    FlattenSides();
    hide SCRIPTS, ExecAll, Flatten, Block;
    var folder := ShippedFolder(root, n);
    var L := folder.files;
    forall i: nat, j: nat, d | p <= i <= j <= |L| && Block(folder, L[i..j], d).Some?
      ensures Block(folder, L[i..], Block(folder, L[i..j], d).value) == Block(folder, L[i..], d)
    {
      ReplayOnce(root, n, i, j, d);
    }
  }

  // ---- Folders that hold older files too ----

  /** The last files of the folder are the first n shipped ones, with their effects. */
  ghost predicate ShipsLast(folder: Folder<Db>, older: seq<File>, root: string, n: nat) {
    n <= 10 && Sorted(folder.files) && Extends(folder, older, ShippedFolder(root, n))
  }

  lemma ShippedCount(root: string, n: nat)
    requires n <= 10
    ensures |ShippedFolder(root, n).files| == n
  {
  }

  lemma LastFacts(folder: Folder<Db>, older: seq<File>, root: string, n: nat, i: nat)
    requires ShipsLast(folder, older, root, n) && |older| + i <= |folder.files|
    ensures |folder.files| == |older| + n
    ensures Ready(folder, |older| + i) && NoAlias(folder.files[|older| + i..]) && ReplaySafe(folder, |older| + i)
  {
    hide *;
    ShipsParts(folder, older, root, n);
    ShippedCount(root, n);
    var own := ShippedFolder(root, n);
    ExtendsCount(folder, older, own);
    ShippedReady(root, n, i);
    ShippedReplaySafe(root, n, i);
    ExtendsReady(folder, older, own, i);
    ExtendsNames(folder, older, own, i);
    ExtendsReplaySafe(folder, older, own, i);
  }

  /** Migrating with the shipped scripts, from any database whose stored version covers the older files
      of the folder, killed any number of times between scripts: when a run completes, the tables and
      the stored version are those of one uninterrupted run, and a run can complete exactly when that
      one does. */
  lemma ShippedConverges(folder: Folder<Db>, older: seq<File>, root: string, n: nat,
                         s0: State<Db>, ks: seq<nat>, k: nat)
    requires ShipsLast(folder, older, root, n) && StartOf(folder, s0) >= |older|
    ensures
      var once := Uninterrupted(folder, s0);
      var last := Run(folder, k, Runs(folder, ks, s0));
      && (Uninterrupted(folder, Runs(folder, ks, s0)).completed <==> once.completed)
      && (last.completed ==> once.completed && last.s.tables == once.s.tables && last.s.version == once.s.version)
  {
    hide *;
    LastFacts(folder, older, root, n, StartOf(folder, s0) - |older|);
    Converges(folder, s0, ks, k);
  }

  /** A run that begins at or before 0.0.13 and goes beyond it completes exactly when the scripts before
      0.0.13 succeed and, if it goes up to 0.0.18, the roles have a name and no key column
      can_impersonate. */
  lemma ShippedCompletes(folder: Folder<Db>, older: seq<File>, root: string, n: nat, s0: State<Db>, i: nat)
    requires ShipsLast(folder, older, root, n)
    requires StartOf(folder, s0) == |older| + i && i <= RESET < n && |SCRIPTS| == 10
    ensures Uninterrupted(folder, s0).completed <==>
      ExecAll(Flatten(SCRIPTS[i..RESET]), s0.tables).Some? && (n == 10 ==> RolesReady(s0.tables))
  {
    LastCompletes(folder, older, root, n, s0, i);
    hide *;
    SucceedsExactly(i, n, s0.tables);
  }

  lemma LastCompletes(folder: Folder<Db>, older: seq<File>, root: string, n: nat, s0: State<Db>, i: nat)
    requires ShipsLast(folder, older, root, n) && StartOf(folder, s0) == |older| + i && i <= n && |SCRIPTS| == 10
    ensures Uninterrupted(folder, s0).completed <==> ExecAll(Flatten(SCRIPTS[i..n]), s0.tables).Some?
  {
    hide *;
    ShipsParts(folder, older, root, n);
    LastFacts(folder, older, root, n, i);
    ExtendsCompletes(folder, older, ShippedFolder(root, n), i, s0);
    OwnBlock(root, n, i, s0.tables);
  }

  lemma OwnBlock(root: string, n: nat, i: nat, d: Db)
    requires i <= n <= 10 && |SCRIPTS| == 10
    ensures |ShippedFolder(root, n).files| == n
    ensures Block(ShippedFolder(root, n), ShippedFolder(root, n).files[i..], d) == ExecAll(Flatten(SCRIPTS[i..n]), d)
  {
    hide *;
    ShippedCount(root, n);
    ShippedBlock(root, n, i, n, d);
    assert ShippedFolder(root, n).files[i..n] == ShippedFolder(root, n).files[i..];
  }

  lemma ShipsParts(folder: Folder<Db>, older: seq<File>, root: string, n: nat)
    requires ShipsLast(folder, older, root, n)
    ensures n <= 10 && Sorted(folder.files) && Extends(folder, older, ShippedFolder(root, n))
  {
  }

  /** A database at 0.0.8, without the tables of the schema, can be brought to 0.0.18 exactly when the
      roles are ready, and to any version from 0.0.13 to 0.0.17 always. */
  lemma FreshCompletes(folder: Folder<Db>, older: seq<File>, root: string, n: nat, s0: State<Db>)
    requires ShipsLast(folder, older, root, n)
    requires StartOf(folder, s0) == |older| && RESET < n && Fresh(s0.tables)
    ensures Uninterrupted(folder, s0).completed <==> (n == 10 ==> RolesReady(s0.tables))
  {
    FlattenSides();
    FreshRuns(s0.tables);
    hide BEFORE, AFTER, SCRIPTS, Flatten, ShipsLast, Uninterrupted, Sorted, Fresh, RolesReady;
    ShippedCompletes(folder, older, root, n, s0, 0);
    assert SCRIPTS[0..RESET] == SCRIPTS[..RESET];
  }
}
