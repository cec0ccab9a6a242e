/** The text expression of the backfill in migrations/0.0.11: it strips list and non-null wrappers
    from a printed GraphQL type reference. */
module TypeRefs {

  /** Section 2.11 of the GraphQL specification (October 2021). */
  datatype TypeRef = Named(name: string) | ListOf(item: TypeRef) | NonNull(inner: TypeRef)

  function Print(t: TypeRef): string {
    match t
    case Named(n) => n
    case ListOf(i) => "[" + Print(i) + "]"
    case NonNull(i) => Print(i) + "!"
  }

  function Innermost(t: TypeRef): string {
    match t
    case Named(n) => n
    case ListOf(i) => Innermost(i)
    case NonNull(i) => Innermost(i)
  }

  predicate IsWrapper(c: char) { c == '[' || c == ']' || c == '!' }

  /** The white space class of the regular expression, which differs between the databases. */
  type Class = char -> bool

  /** The class in DuckDB. Postgres counts the vertical tab too. */
  predicate IsSpace(c: char) { c in " \t\n\r" || c as int == 12 }

  /** The inner replacement: every wrapper character goes. */
  function RemoveWrappers(s: string): string {
    if s == "" then "" else (if IsWrapper(s[0]) then "" else [s[0]]) + RemoveWrappers(s[1..])
  }

  function DropLeading(s: string, space: Class): string {
    if s != "" && space(s[0]) then DropLeading(s[1..], space) else s
  }

  function DropTrailing(s: string, space: Class): string {
    if s != "" && space(s[|s| - 1]) then DropTrailing(s[..|s| - 1], space) else s
  }

  /** The outer replacement has no global flag: it removes the first match only, the leading white
      space if there is any and otherwise the trailing one. */
  function TrimFirst(s: string, space: Class): string {
    if s != "" && space(s[0]) then DropLeading(s, space) else DropTrailing(s, space)
  }

  function Strip(s: string, space: Class): string { TrimFirst(RemoveWrappers(s), space) }

  lemma {:induction false} RemoveConcat(s: string, t: string)
    ensures RemoveWrappers(s + t) == RemoveWrappers(s) + RemoveWrappers(t)
  {
    if s == "" {
      assert s + t == t;
    } else {
      assert (s + t)[1..] == s[1..] + t;
      RemoveConcat(s[1..], t);
    }
  }

  lemma {:induction false} RemovePlain(s: string)
    requires forall c | c in s :: c !in "[]!"
    ensures RemoveWrappers(s) == s
  {
    if s != "" {
      assert s[0] in s && forall c | c in s[1..] :: c in s;
      RemovePlain(s[1..]);
      assert s == [s[0]] + s[1..];
    }
  }

  /** Of any text exactly the wrapper characters go, wherever they stand. */
  lemma RemovesWrappers(s: string, w: char, t: string)
    requires w in "[]!"
    ensures RemoveWrappers(s + [w] + t) == RemoveWrappers(s + t)
    ensures (forall c | c in s :: c !in "[]!") ==> RemoveWrappers(s) == s
  {
    RemoveConcat(s + [w], t);
    RemoveConcat(s, [w]);
    RemoveConcat(s, t);
    assert [w][1..] == "";
    if forall c | c in s :: c !in "[]!" { RemovePlain(s); }
  }

  /** Only the innermost name is left of a printed reference, whatever its wrappers. */
  lemma {:induction false} RemovePrinted(t: TypeRef)
    requires forall c | c in Innermost(t) :: c !in "[]!"
    ensures RemoveWrappers(Print(t)) == Innermost(t)
  {
    match t
    case Named(n) => RemovePlain(n);
    case ListOf(i) =>
      RemovePrinted(i);
      RemoveConcat("[", Print(i));
      RemoveConcat("[" + Print(i), "]");
    case NonNull(i) =>
      RemovePrinted(i);
      RemoveConcat(Print(i), "!");
  }

  lemma {:induction false} DropShorter(s: string, space: Class)
    ensures |DropLeading(s, space)| <= |s| && |DropTrailing(s, space)| <= |s|
    decreases |s|
  {
    if s != "" {
      DropShorter(s[1..], space);
      DropShorter(s[..|s| - 1], space);
    }
  }

  /** Whatever counts as white space, the backfill expression yields the innermost type name of a
      printed reference exactly when that name has no white space at its ends, as every GraphQL name. */
  lemma StripPrinted(t: TypeRef, space: Class)
    requires forall c | c in Innermost(t) :: c !in "[]!"
    ensures
      var n := Innermost(t);
      Strip(Print(t), space) == n <==> n == "" || (!space(n[0]) && !space(n[|n| - 1]))
  {
    RemovePrinted(t);
    var n := Innermost(t);
    if n != "" {
      DropShorter(n[1..], space);
      DropShorter(n[..|n| - 1], space);
    }
  }

  // ---- White space on any text ----

  /** Space, tab, line feed, carriage return or form feed. */
  predicate White(c: char) { c == ' ' || c == '\t' || c == '\n' || c == '\r' || c as int == 12 }

  lemma {:induction false} DropsLeading(s: string, space: Class)
    ensures
      var v := DropLeading(s, space);
      && |v| <= |s| && s == s[..|s| - |v|] + v
      && (forall c | c in s[..|s| - |v|] :: space(c)) && (v != "" ==> !space(v[0]))
  {
    if s != "" && space(s[0]) {
      DropsLeading(s[1..], space);
      var v := DropLeading(s, space);
      assert s[..|s| - |v|] == [s[0]] + s[1..][..|s| - 1 - |v|];
    }
  }

  lemma {:induction false} DropsTrailing(s: string, space: Class)
    ensures
      var v := DropTrailing(s, space);
      && |v| <= |s| && s == v + s[|v|..]
      && (forall c | c in s[|v|..] :: space(c)) && (v != "" ==> !space(v[|v| - 1]))
  {
    if s != "" && space(s[|s| - 1]) {
      DropsTrailing(s[..|s| - 1], space);
      var v := DropTrailing(s, space);
      assert s[|v|..] == s[..|s| - 1][|v|..] + [s[|s| - 1]];
    }
  }

  /** What the expression makes of any text in DuckDB: the text r without wrapper characters loses all
      its leading white space if it has any, and otherwise all its trailing white space. */
  lemma StripMeaning(s: string)
    ensures
      var r, v := RemoveWrappers(s), Strip(s, IsSpace);
      && |v| <= |r|
      && (r != "" && White(r[0]) ==>
            && r == r[..|r| - |v|] + v && (forall c | c in r[..|r| - |v|] :: White(c))
            && (v != "" ==> !White(v[0])))
      && (r != "" && !White(r[0]) ==>
            && r == v + r[|v|..] && (forall c | c in r[|v|..] :: White(c))
            && v != "" && !White(v[|v| - 1]))
  {
    hide *;
    var r := RemoveWrappers(s);
    SpaceIsWhite();
    StripIs(s);
    DropsLeading(r, IsSpace);
    DropsTrailing(r, IsSpace);
    if r != "" { assert r[0..] == r && r[0] in r; }
  }

  lemma SpaceIsWhite()
    ensures forall c :: IsSpace(c) <==> White(c)
  {
  }

  lemma StripIs(s: string)
    ensures
      var r := RemoveWrappers(s);
      Strip(s, IsSpace) == if r != "" && IsSpace(r[0]) then DropLeading(r, IsSpace) else DropTrailing(r, IsSpace)
  {
    hide RemoveWrappers, IsSpace, DropLeading, DropTrailing;
  }
}
