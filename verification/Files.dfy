/** Discovery of the migration files: which files a run selects, and in which order it applies them
    (cmd/migrate/main.go). The directory walk is the list of paths it visits, in any order. */
module Files {
  import opened Strings
  import opened Versions

  datatype File = File(path: string, version: string)

  function TrimPrefix(s: string, prefix: string): string {
    if prefix <= s then s[|prefix|..] else s
  }

  function TrimLeft(s: string, cutset: string): string {
    if s != "" && s[0] in cutset then TrimLeft(s[1..], cutset) else s
  }

  function TrimRight(s: string, cutset: string): string {
    if s != "" && s[|s| - 1] in cutset then TrimRight(s[..|s| - 1], cutset) else s
  }

  /** The version a path belongs to: its first component below the root, without any trailing
      characters out of the set ".sql". */
  function VersionOf(root: string, path: string): string {
    TrimRight(Split(TrimLeft(TrimPrefix(path, root), "/"), '/')[0], ".sql")
  }

  predicate Wanted(v: string, stored: string, target: string) {
    !(Compare(stored, v) >= 0 || (target != "" && Compare(v, target) > 0))
  }

  predicate WithinTarget(v: string, target: string) {
    target == "" || Compare(v, target) <= 0
  }

  function Select(paths: seq<string>, root: string, stored: string, target: string): seq<File> {
    if paths == [] then [] else
    var v := VersionOf(root, paths[0]);
    var rest := Select(paths[1..], root, stored, target);
    if Wanted(v, stored, target) then [File(paths[0], v)] + rest else rest
  }

  lemma WantedMeans(v: string, stored: string, target: string)
    ensures Wanted(v, stored, target) <==> Compare(v, stored) > 0 && (target == "" || Compare(v, target) <= 0)
  {
    CompareTotalPreorder(stored, v, v);
  }

  method IsWanted(v: string, stored: string, target: string) returns (wanted: bool)
    ensures wanted <==> Compare(v, stored) > 0 && (target == "" || Compare(v, target) <= 0)
  {
    CompareTotalPreorder(stored, v, v);
    var c := CompareVersions(stored, v);
    if c >= 0 { return false; }
    if target == "" { return true; }
    c := CompareVersions(v, target);
    return c <= 0;
  }

  /** The walk's callback, which appends every wanted file. */
  method SelectFiles(paths: seq<string>, root: string, stored: string, target: string) returns (files: seq<File>)
    ensures files == Select(paths, root, stored, target)
  {
    hide Compare, VersionOf;
    files := [];
    for i := 0 to |paths|
      invariant Select(paths, root, stored, target) == files + Select(paths[i..], root, stored, target)
    {
      var mv := VersionOf(root, paths[i]);
      var wanted := IsWanted(mv, stored, target);
      WantedMeans(mv, stored, target);
      assert paths[i..][1..] == paths[i + 1..];
      if wanted {
        files := files + [File(paths[i], mv)];
      }
    }
  }

  // ---- The order of application ----

  /** The comparator given to the sort: by version, then by path. */
  function Order(a: File, b: File): (c: int)
    ensures -1 <= c <= 1
  {
    var c := Compare(a.version, b.version);
    if c != 0 then c else CompareStrings(a.path, b.path)
  }

  lemma OrderFlip(a: File, b: File)
    ensures Order(a, b) == -Order(b, a)
    ensures Order(a, b) == 0 ==> a.path == b.path
  {
    CompareTotalPreorder(a.version, b.version, a.version);
    CompareStringsFlip(a.path, b.path);
  }

  lemma OrderTrans(a: File, b: File, c: File)
    requires Order(a, b) <= 0 && Order(b, c) <= 0
    ensures Order(a, c) <= 0
  {
    CompareTotalPreorder(a.version, b.version, c.version);
    CompareTotalPreorder(b.version, c.version, a.version);
    CompareTotalPreorder(c.version, a.version, b.version);
    if Compare(a.version, b.version) == 0 && Compare(b.version, c.version) == 0 {
      CompareStringsTrans(a.path, b.path, c.path);
    }
  }

  ghost predicate Sorted(files: seq<File>) {
    forall i, j | 0 <= i < j < |files| :: Order(files[i], files[j]) <= 0
  }

  function Insert(f: File, files: seq<File>): seq<File> {
    if files == [] || Order(f, files[0]) <= 0 then [f] + files else [files[0]] + Insert(f, files[1..])
  }

  /** The result of the library sort. By SortedUnique it does not matter which sorting algorithm
      computes it. */
  function Sort(files: seq<File>): seq<File> {
    if files == [] then [] else Insert(files[0], Sort(files[1..]))
  }

  lemma {:induction false} InsertSorted(f: File, files: seq<File>)
    requires Sorted(files)
    ensures Sorted(Insert(f, files))
    ensures multiset(Insert(f, files)) == multiset{f} + multiset(files)
    ensures forall g :: g in Insert(f, files) <==> g == f || g in files
  {
    hide Compare, CompareStrings;
    if files != [] {
      assert files == [files[0]] + files[1..];
      OrderFlip(f, files[0]);
      if Order(f, files[0]) <= 0 {
        forall j | 0 <= j < |files| ensures Order(f, files[j]) <= 0 {
          if j > 0 { OrderTrans(f, files[0], files[j]); }
        }
      } else {
        InsertSorted(f, files[1..]);
        var r := Insert(f, files[1..]);
        forall j | 0 <= j < |r| ensures Order(files[0], r[j]) <= 0 { assert r[j] in r; }
      }
    }
  }

  lemma {:induction false} SortSorted(files: seq<File>)
    ensures Sorted(Sort(files))
    ensures multiset(Sort(files)) == multiset(files)
    ensures forall g :: g in Sort(files) <==> g in files
  {
    if files != [] {
      assert files == [files[0]] + files[1..];
      SortSorted(files[1..]);
      InsertSorted(files[0], Sort(files[1..]));
    }
  }

  /** Two sorted arrangements of the same files are the same sequence, when a path has one version. */
  lemma {:induction false} SortedUnique(xs: seq<File>, ys: seq<File>)
    requires Sorted(xs) && Sorted(ys) && multiset(xs) == multiset(ys)
    requires forall f, g | f in xs && g in xs && f.path == g.path :: f == g
    ensures xs == ys
  {
    hide Compare, CompareStrings;
    if xs == [] {
      assert |multiset(ys)| == 0;
    } else {
      assert |ys| == |multiset(ys)| == |multiset(xs)| > 0;
      SortedHead(xs, ys);
      assert xs == [xs[0]] + xs[1..] && ys == [ys[0]] + ys[1..];
      SortedUnique(xs[1..], ys[1..]);
    }
  }

  lemma SortedHead(xs: seq<File>, ys: seq<File>)
    requires xs != [] && ys != [] && Sorted(xs) && Sorted(ys) && multiset(xs) == multiset(ys)
    requires forall f, g | f in xs && g in xs && f.path == g.path :: f == g
    ensures xs[0] == ys[0]
    ensures multiset(xs[1..]) == multiset(ys[1..])
  {
    hide Order;
    assert xs[0] in multiset(ys) && ys[0] in multiset(xs);
    HeadFirst(xs, ys[0]);
    HeadFirst(ys, xs[0]);
    OrderFlip(xs[0], ys[0]);
    MultisetTail(xs);
    MultisetTail(ys);
  }

  lemma HeadFirst(xs: seq<File>, f: File)
    requires Sorted(xs) && f in xs
    ensures Order(xs[0], f) <= 0
  {
    hide Order;
    var i :| 0 <= i < |xs| && xs[i] == f;
    if i == 0 { OrderFlip(f, f); }
  }

  lemma MultisetTail(xs: seq<File>)
    requires xs != []
    ensures multiset(xs[1..]) == multiset(xs) - multiset{xs[0]}
  {
    assert xs == [xs[0]] + xs[1..];
  }

  lemma {:induction false} SelectFacts(paths: seq<string>, root: string, stored: string, target: string)
    ensures forall f :: f in Select(paths, root, stored, target) <==>
              f.path in paths && f.version == VersionOf(root, f.path) && Wanted(f.version, stored, target)
  {
    if paths != [] {
      SelectFacts(paths[1..], root, stored, target);
    }
  }

  lemma {:induction false} SelectCount(paths: seq<string>, root: string, stored: string, target: string, f: File)
    ensures multiset(Select(paths, root, stored, target))[f] ==
              if f.version == VersionOf(root, f.path) && Wanted(f.version, stored, target)
              then multiset(paths)[f.path] else 0
  {
    if paths != [] {
      assert paths == [paths[0]] + paths[1..];
      SelectCount(paths[1..], root, stored, target, f);
    }
  }

  /** The applied sequence does not depend on the order in which the walk meets the files. */
  lemma WalkOrderIndependent(paths: seq<string>, paths': seq<string>, root: string, stored: string, target: string)
    requires multiset(paths) == multiset(paths')
    ensures Sort(Select(paths, root, stored, target)) == Sort(Select(paths', root, stored, target))
  {
    var xs, ys := Select(paths, root, stored, target), Select(paths', root, stored, target);
    forall f: File ensures multiset(xs)[f] == multiset(ys)[f] {
      SelectCount(paths, root, stored, target, f);
      SelectCount(paths', root, stored, target, f);
    }
    SortSorted(xs);
    SortSorted(ys);
    SelectFacts(paths, root, stored, target);
    SortedUnique(Sort(xs), Sort(ys));
  }

  /** In the applied sequence the files whose versions compare equal stand next to each other. */
  lemma EqualVersionsContiguous(files: seq<File>, i: nat, j: nat, k: nat)
    requires Sorted(files) && i <= j <= k < |files|
    requires Compare(files[i].version, files[k].version) == 0
    ensures Compare(files[i].version, files[j].version) == 0
    ensures Compare(files[j].version, files[k].version) == 0
  {
    var a, b, c := files[i].version, files[j].version, files[k].version;
    CompareTotalPreorder(a, a, b);
    CompareTotalPreorder(c, c, b);
    CompareTotalPreorder(a, b, c);
    CompareTotalPreorder(c, a, b);
    CompareTotalPreorder(b, c, a);
  }

  // ---- What a run applies, and in what order ----

  /** a holds the smaller byte at i, the first place where they differ. */
  ghost predicate SmallerAt(a: string, b: string, i: nat) {
    i < |a| && i < |b| && a[..i] == b[..i] && a[i] < b[i]
  }

  /** a is a leading part of b, or holds the smaller byte at the first place where they differ. */
  ghost predicate Precedes(a: string, b: string) { a <= b || exists i: nat :: SmallerAt(a, b, i) }

  lemma {:induction false} CompareStringsMeaning(a: string, b: string)
    ensures CompareStrings(a, b) <= 0 <==> Precedes(a, b)
  {
    hide Precedes;
    if a == "" || b == "" {
      EmptyPrecedes(a, b);
    }
    if a != "" && b != "" {
      if a[0] == b[0] {
        CompareStringsMeaning(a[1..], b[1..]);
        SameHead(a, b);
      } else if a[0] < b[0] {
        SmallerPrecedes(a, b);
      } else {
        NotBefore(a, b);
      }
    }
  }

  lemma EmptyPrecedes(a: string, b: string)
    requires a == "" || b == ""
    ensures Precedes(a, b) <==> a == ""
  {
  }

  lemma SmallerPrecedes(a: string, b: string)
    requires a != "" && b != "" && a[0] < b[0]
    ensures Precedes(a, b)
  {
    assert SmallerAt(a, b, 0);
  }

  lemma NotBefore(a: string, b: string)
    requires a != "" && b != "" && a[0] > b[0]
    ensures !Precedes(a, b)
  {
    forall i: nat ensures !SmallerAt(a, b, i) {
      if 0 < i < |a| && i < |b| { assert a[..i][0] == a[0] && b[..i][0] == b[0]; }
    }
  }

  lemma SmallerNext(a: string, b: string, i: nat)
    requires a != "" && b != "" && a[0] == b[0]
    ensures SmallerAt(a[1..], b[1..], i) <==> SmallerAt(a, b, i + 1)
  {
    if i < |a| - 1 && i < |b| - 1 {
      assert a[..i + 1] == [a[0]] + a[1..][..i] && b[..i + 1] == [b[0]] + b[1..][..i];
      assert a[..i + 1][1..] == a[1..][..i] && b[..i + 1][1..] == b[1..][..i];
    }
  }

  lemma PrefixNext(a: string, b: string)
    requires a != "" && b != "" && a[0] == b[0]
    ensures a[1..] <= b[1..] <==> a <= b
  {
    assert a == [a[0]] + a[1..] && b == [b[0]] + b[1..];
    if a[1..] <= b[1..] { assert b == [b[0]] + (a[1..] + b[1..][|a| - 1..]); }
    if a <= b { assert a[1..] == b[..|a|][1..] && b[..|a|][1..] == b[1..][..|a| - 1]; }
  }

  lemma SameHead(a: string, b: string)
    requires a != "" && b != "" && a[0] == b[0]
    ensures Precedes(a[1..], b[1..]) <==> Precedes(a, b)
  {
    PrefixNext(a, b);
    forall i: nat ensures SmallerAt(a[1..], b[1..], i) <==> SmallerAt(a, b, i + 1) { SmallerNext(a, b, i); }
    assert !SmallerAt(a, b, 0);
    hide SmallerAt;
    if i: nat :| SmallerAt(a[1..], b[1..], i) { assert SmallerAt(a, b, i + 1); }
    if i: nat :| SmallerAt(a, b, i) { assert SmallerAt(a[1..], b[1..], i - 1); }
  }

  /** A run applies every file that the walk meets whose version is above the stored one and not above
      the target, as often as the walk meets it, in ascending order of the versions, and files whose
      versions compare equal in ascending order of their paths. */
  lemma AppliedExactly(paths: seq<string>, root: string, stored: string, target: string)
    ensures
      var applied := Sort(Select(paths, root, stored, target));
      && (forall f: File :: multiset(applied)[f] ==
            if && f.version == VersionOf(root, f.path) && Compare(f.version, stored) > 0
               && (target == "" || Compare(f.version, target) <= 0)
            then multiset(paths)[f.path] else 0)
      && (forall i, j | 0 <= i < j < |applied| ::
            && Compare(applied[i].version, applied[j].version) <= 0
            && (Compare(applied[i].version, applied[j].version) == 0 ==> Precedes(applied[i].path, applied[j].path)))
  {
    var files := Select(paths, root, stored, target);
    var applied := Sort(files);
    SortSorted(files);
    hide VersionOf, Compare, Precedes, CompareStrings, Wanted;
    forall f: File
      ensures multiset(applied)[f] ==
        if && f.version == VersionOf(root, f.path) && Compare(f.version, stored) > 0
           && (target == "" || Compare(f.version, target) <= 0)
        then multiset(paths)[f.path] else 0
    {
      SelectCount(paths, root, stored, target, f);
      WantedMeans(f.version, stored, target);
    }
    forall i, j | 0 <= i < j < |applied|
      ensures Compare(applied[i].version, applied[j].version) <= 0
      ensures Compare(applied[i].version, applied[j].version) == 0 ==> Precedes(applied[i].path, applied[j].path)
    {
      CompareStringsMeaning(applied[i].path, applied[j].path);
    }
  }

  // ---- The version of a path ----

  lemma BelowRoot(root: string, x: string)
    requires x != "" && x[0] != '/'
    ensures VersionOf(root, root + "/" + x) == TrimRight(Split(x, '/')[0], ".sql")
  {
    var p := root + "/" + x;
    assert p[..|root|] == root && p[|root|..] == "/" + x && ("/" + x)[1..] == x;
    assert TrimLeft(x, "/") == x;
    hide Split, TrimRight;
  }

  /** A file in a folder of its own version, and a file named after its version, both get it. */
  lemma VersionOfLayout(root: string, v: string, rest: string)
    requires v != "" && '/' !in v
    requires v[|v| - 1] !in ".sql"
    ensures VersionOf(root, root + "/" + v + "/" + rest) == v
    ensures VersionOf(root, root + "/" + v + ".sql") == v
  {
    hide VersionOf, Split;
    var x, y := v + "/" + rest, v + ".sql";
    assert v[0] != '/';
    assert root + "/" + v + "/" + rest == root + "/" + x && root + "/" + v + ".sql" == root + "/" + y;
    BelowRoot(root, x);
    BelowRoot(root, y);
    SplitCons(v, rest, '/');
    SplitNoSep(y, '/');
    assert x == v + ['/'] + rest;
    assert TrimRight(v, ".sql") == v;
    TrimExtension(v);
  }

  lemma TrimExtension(v: string)
    requires v != "" && v[|v| - 1] !in ".sql"
    ensures TrimRight(v + ".sql", ".sql") == v
  {
    assert (v + ".sql")[..|v| + 3] == v + ".sq";
    assert (v + ".sq")[..|v| + 2] == v + ".s";
    assert (v + ".s")[..|v| + 1] == v + ".";
    assert (v + ".")[..|v|] == v;
    assert TrimRight(v, ".sql") == v;
    assert TrimRight(v + ".", ".sql") == v;
    assert TrimRight(v + ".s", ".sql") == v;
    assert TrimRight(v + ".sq", ".sql") == v;
  }

  /** TrimRight removes exactly the trailing characters out of the set. */
  lemma {:induction false} TrimRightMeaning(s: string, cutset: string)
    ensures
      var v := TrimRight(s, cutset);
      && v <= s && (v == "" || v[|v| - 1] !in cutset)
      && forall c | c in s[|v|..] :: c in cutset
  {
    if s != "" && s[|s| - 1] in cutset {
      TrimRightMeaning(s[..|s| - 1], cutset);
      var v := TrimRight(s, cutset);
      assert s[|v|..] == s[..|s| - 1][|v|..] + [s[|s| - 1]];
    } else {
      assert s[|s|..] == "";
    }
  }

  lemma {:induction false} TrimSlashes(slashes: string, s: string)
    requires (forall c | c in slashes :: c == '/') && s != "" && s[0] != '/'
    ensures TrimLeft(slashes + s, "/") == s
  {
    if slashes == "" {
      assert slashes + s == s;
    } else {
      assert (slashes + s)[1..] == slashes[1..] + s && slashes[0] in slashes;
      assert forall c | c in slashes[1..] :: c in slashes;
      TrimSlashes(slashes[1..], s);
    }
  }

  /** Any path below the root: its version is its first component without the trailing characters out of
      the set ".sql". */
  lemma VersionOfExactly(root: string, slashes: string, first: string, rest: string)
    requires (forall c | c in slashes :: c == '/') && first != "" && '/' !in first
    requires rest == "" || rest[0] == '/'
    ensures
      var v := VersionOf(root, root + slashes + first + rest);
      && v <= first && (v == "" || v[|v| - 1] !in ".sql")
      && forall c | c in first[|v|..] :: c in ".sql"
  {
    hide TrimRight, TrimLeft, Split;
    var path := root + slashes + first + rest;
    assert path == root + (slashes + (first + rest)) && path[..|root|] == root;
    assert path[|root|..] == slashes + (first + rest);
    assert first[0] in first;
    TrimSlashes(slashes, first + rest);
    if rest == "" {
      assert first + rest == first;
      SplitNoSep(first, '/');
    } else {
      assert first + rest == first + ['/'] + rest[1..];
      SplitCons(first, rest[1..], '/');
    }
    TrimRightMeaning(first, ".sql");
  }

  // ---- One sorted catalogue for all runs: a run applies its part above the stored version ----

  /** The files of the folder up to a target, in the order of application. */
  function Catalogue(paths: seq<string>, root: string, target: string): seq<File> {
    Sort(AllWithin(paths, root, target))
  }

  function AllWithin(paths: seq<string>, root: string, target: string): seq<File> {
    if paths == [] then [] else
    var v := VersionOf(root, paths[0]);
    var rest := AllWithin(paths[1..], root, target);
    if WithinTarget(v, target) then [File(paths[0], v)] + rest else rest
  }

  /** How often the walk meets a file up to the target. */
  ghost function CountWithin(paths: seq<string>, root: string, target: string, f: File): nat {
    if f.version == VersionOf(root, f.path) && WithinTarget(f.version, target) then multiset(paths)[f.path] else 0
  }

  lemma {:induction false} WithinCount(paths: seq<string>, root: string, target: string, f: File)
    ensures multiset(AllWithin(paths, root, target))[f] == CountWithin(paths, root, target, f)
  {
    hide VersionOf, Compare;
    if paths != [] {
      assert paths == [paths[0]] + paths[1..];
      WithinCount(paths[1..], root, target, f);
    }
  }

  /** A sorted list that holds each file up to the target as often as the walk meets its path is the
      catalogue. */
  lemma CatalogueIs(paths: seq<string>, root: string, target: string, files: seq<File>)
    requires Sorted(files)
    requires forall f :: multiset(files)[f] == CountWithin(paths, root, target, f)
    ensures Catalogue(paths, root, target) == files
  {
    hide VersionOf, Compare, WithinTarget, Sorted, Sort;
    var xs := AllWithin(paths, root, target);
    forall f: File ensures multiset(xs)[f] == multiset(files)[f] { WithinCount(paths, root, target, f); }
    SortSorted(xs);
    forall f | f in files ensures f.version == VersionOf(root, f.path) { assert multiset(files)[f] > 0; }
    SortedUnique(files, Sort(xs));
  }

  /** The files above a version, in order. */
  function Above(files: seq<File>, v: string): seq<File>
  {
    if files == [] then []
    else if Compare(v, files[0].version) < 0 then [files[0]] + Above(files[1..], v)
    else Above(files[1..], v)
  }

  /** The files at or below a version, in order. */
  function AtMost(files: seq<File>, v: string): seq<File>
  {
    if files == [] then []
    else if Compare(files[0].version, v) <= 0 then [files[0]] + AtMost(files[1..], v)
    else AtMost(files[1..], v)
  }

  lemma {:induction false} AboveMembers(files: seq<File>, v: string)
    ensures forall f :: f in Above(files, v) <==> f in files && Compare(v, f.version) < 0
  {
    hide Compare;
    if files != [] { AboveMembers(files[1..], v); }
  }

  lemma {:induction false} AtMostMembers(files: seq<File>, v: string)
    ensures forall f :: f in AtMost(files, v) <==> f in files && Compare(f.version, v) <= 0
  {
    hide Compare;
    if files != [] { AtMostMembers(files[1..], v); }
  }

  /** How many leading files are at or below a version. */
  function Pos(files: seq<File>, v: string): (p: nat)
    ensures p <= |files|
    ensures forall i | 0 <= i < p :: Compare(files[i].version, v) <= 0
    ensures p < |files| ==> Compare(files[p].version, v) > 0
  {
    if files == [] || Compare(files[0].version, v) > 0 then 0 else 1 + Pos(files[1..], v)
  }

  /** In a sorted catalogue, Pos separates the files at or below a version from those above it. */
  lemma PosSplits(files: seq<File>, v: string)
    requires Sorted(files)
    ensures forall i | 0 <= i < |files| :: i < Pos(files, v) <==> Compare(files[i].version, v) <= 0
  {
    hide Compare, CompareStrings, Pos;
    var p := Pos(files, v);
    forall i | p <= i < |files| ensures Compare(files[i].version, v) > 0 {
      CompareTotalPreorder(v, files[p].version, files[i].version);
      CompareTotalPreorder(v, files[i].version, v);
      CompareTotalPreorder(files[p].version, v, v);
    }
  }

  lemma {:induction false} AllAbove(files: seq<File>, v: string)
    requires forall f | f in files :: Compare(f.version, v) > 0
    ensures Above(files, v) == files && AtMost(files, v) == []
  {
    hide Compare;
    if files != [] {
      CompareTotalPreorder(files[0].version, v, v);
      AllAbove(files[1..], v);
    }
  }

  lemma SortedTail(files: seq<File>)
    requires Sorted(files) && files != []
    ensures Sorted(files[1..])
  {
    hide Order;
  }

  lemma {:induction false} SplitAtPos(files: seq<File>, v: string)
    requires Sorted(files)
    ensures Above(files, v) == files[Pos(files, v)..]
    ensures AtMost(files, v) == files[..Pos(files, v)]
  {
    hide Compare, Order, Sorted;
    if files != [] {
      CompareTotalPreorder(files[0].version, v, v);
      if Compare(files[0].version, v) > 0 {
        assert Pos(files, v) == 0;
        assert forall f | f in files :: Compare(f.version, v) > 0 by { PosSplits(files, v); }
        AllAbove(files, v);
        assert files[0..] == files && files[..0] == [];
      } else {
        var rest := files[1..];
        var p := Pos(rest, v);
        SortedTail(files);
        SplitAtPos(rest, v);
        assert rest[p..] == files[1 + p..];
        assert files[..1 + p] == [files[0]] + rest[..p];
      }
    }
  }

  lemma PosMonotone(files: seq<File>, v: string, w: string)
    requires Sorted(files) && Compare(v, w) <= 0
    ensures Pos(files, v) <= Pos(files, w)
  {
    PosSplits(files, w);
    var p := Pos(files, v);
    if p > 0 {
      CompareTotalPreorder(files[p - 1].version, v, w);
    }
  }

  lemma {:induction false} InsertFirst(f: File, files: seq<File>)
    requires files == [] || Order(f, files[0]) <= 0
    ensures Insert(f, files) == [f] + files
  {
  }

  lemma {:induction false} AboveInsert(f: File, files: seq<File>, v: string)
    requires Sorted(files)
    ensures Above(Insert(f, files), v) ==
        if Compare(v, f.version) < 0 then Insert(f, Above(files, v)) else Above(files, v)
  {
    hide Compare, CompareStrings;
    assert ([f] + files)[1..] == files;
    if files != [] {
      if Order(f, files[0]) <= 0 {
        var rest := Above(files, v);
        AboveMembers(files, v);
        if rest != [] {
          var j :| 0 <= j < |files| && files[j] == rest[0] by { assert rest[0] in rest; }
          if j > 0 { OrderTrans(f, files[0], files[j]); }
        }
        InsertFirst(f, rest);
      } else {
        AboveInsert(f, files[1..], v);
        assert ([files[0]] + Insert(f, files[1..]))[1..] == Insert(f, files[1..]);
        if Compare(v, f.version) < 0 {
          if Compare(v, files[0].version) < 0 {
            assert ([files[0]] + Above(files[1..], v))[1..] == Above(files[1..], v);
          } else {
          }
        }
      }
    }
  }

  lemma {:induction false} AtMostInsert(f: File, files: seq<File>, v: string)
    requires Sorted(files)
    ensures AtMost(Insert(f, files), v) ==
        if Compare(f.version, v) <= 0 then Insert(f, AtMost(files, v)) else AtMost(files, v)
  {
    hide Compare, CompareStrings;
    assert ([f] + files)[1..] == files;
    if files != [] {
      if Order(f, files[0]) <= 0 {
        var rest := AtMost(files, v);
        AtMostMembers(files, v);
        if rest != [] {
          var j :| 0 <= j < |files| && files[j] == rest[0] by { assert rest[0] in rest; }
          if j > 0 { OrderTrans(f, files[0], files[j]); }
        }
        InsertFirst(f, rest);
      } else {
        AtMostInsert(f, files[1..], v);
        assert ([files[0]] + Insert(f, files[1..]))[1..] == Insert(f, files[1..]);
        if Compare(f.version, v) <= 0 {
          if Compare(files[0].version, v) <= 0 {
            assert ([files[0]] + AtMost(files[1..], v))[1..] == AtMost(files[1..], v);
          } else {
          }
        }
      }
    }
  }

  /** What a run selects and sorts is the catalogue's part above the stored version. */
  lemma {:induction false} SelectedIsAbove(paths: seq<string>, root: string, stored: string, target: string)
    ensures Sort(Select(paths, root, stored, target)) == Above(Catalogue(paths, root, target), stored)
  {
    hide Compare, VersionOf, Order, Insert, Sorted;
    if paths != [] {
      SelectedIsAbove(paths[1..], root, stored, target);
      SortSorted(AllWithin(paths[1..], root, target));
      var v := VersionOf(root, paths[0]);
      CompareTotalPreorder(v, stored, v);
      AboveInsert(File(paths[0], v), Catalogue(paths[1..], root, target), stored);
      var f, xs := File(paths[0], v), Select(paths[1..], root, stored, target);
      assert ([f] + xs)[1..] == xs;
      var ys := AllWithin(paths[1..], root, target);
      assert ([f] + ys)[1..] == ys;
    }
  }

  /** A nearer target leaves the leading part of the catalogue. */
  lemma {:induction false} CatalogueNested(paths: seq<string>, root: string, v1: string, v2: string)
    requires v1 != "" && (v2 == "" || Compare(v1, v2) <= 0)
    ensures Catalogue(paths, root, v1) == AtMost(Catalogue(paths, root, v2), v1)
  {
    if paths != [] {
      CatalogueNested(paths[1..], root, v1, v2);
      SortSorted(AllWithin(paths[1..], root, v2));
      var v := VersionOf(root, paths[0]);
      if Compare(v, v1) <= 0 { CompareTotalPreorder(v, v1, v2); }
      var f := File(paths[0], v);
      AtMostInsert(f, Catalogue(paths[1..], root, v2), v1);
      var xs, ys := AllWithin(paths[1..], root, v1), AllWithin(paths[1..], root, v2);
      assert ([f] + xs)[1..] == xs && ([f] + ys)[1..] == ys;
    }
  }
}
