/** What migrations/0.0.11 does to the type names of the fields and the arguments. */
module Backfill {
  import opened Strings
  import opened TypeRefs
  import opened Sql
  import opened Scripts
  import opened Effects

  /** The clean type name a row has before the backfill: none, if the column is missing. */
  function Before(t: Table, name: string, row: Row): Value {
    if name in Names(t.columns) then Cell(row, name) else Str("")
  }

  /** A name that is not empty, without wrappers, and without white space at its ends, as every GraphQL
      name. */
  predicate PlainName(n: string) {
    && n != ""
    && (forall c | c in n :: c !in "[]!")
    && !White(n[0]) && !White(n[|n| - 1])
  }

  /** The row under k and all its other columns are kept. A clean type name that was there is left, a
      missing one of a printed type reference is filled with the innermost name, and one of a missing
      reference stays missing. */
  ghost predicate Backfilled(d: Db, d': Db, t: TableName, name: string, from: string, k: seq<Value>) {
    && t in d && t in d'
    && (k in d[t].rows <==> k in d'[t].rows)
    && (k in d[t].rows ==>
          var row, row' := d[t].rows[k], d'[t].rows[k];
          var before := Before(d[t], name, row);
          && (forall c | c != name :: Cell(row', c) == Cell(row, c))
          && (before !in {Null, Str("")} ==> Cell(row', name) == before)
          && (before in {Null, Str("")} && Cell(row, from) == Null ==> Cell(row', name) == Null)
          && (forall ref |
                before in {Null, Str("")} && Cell(row, from) == Str(Print(ref)) && PlainName(Innermost(ref)) ::
                Cell(row', name) == Str(Innermost(ref))))
  }

  lemma NamedCells(t: Table, name: string, from: string, row: Row)
    ensures
      var row' := NamedRow(t.columns, name, from, row);
      && (forall c | c != name :: Cell(row', c) == Cell(row, c))
      && Cell(row', name) == if Before(t, name, row) in {Null, Str("")} then Stripped(Cell(row, from))
                             else Before(t, name, row)
  {
    hide Names, Stripped;
  }

  lemma PrintedName(ref: TypeRef)
    requires PlainName(Innermost(ref))
    ensures Stripped(Str(Print(ref))) == Str(Innermost(ref))
  {
    assert forall c :: White(c) <==> IsSpace(c);
    hide Print, Innermost, Strip, White, IsSpace;
    StripPrinted(ref, IsSpace);
  }

  lemma FillsNames(d: Db, d': Db, t: TableName, name: string, from: string, k: seq<Value>)
    requires NamesFilled(d, d', t, name, from)
    ensures Backfilled(d, d', t, name, from, k)
  {
    hide Names, Strip, Print, Innermost, WithColumn, NamedRow, Before, PlainName;
    if k in d[t].rows {
      NamedCells(d[t], name, from, d[t].rows[k]);
      forall ref | PlainName(Innermost(ref)) ensures Stripped(Str(Print(ref))) == Str(Innermost(ref)) {
        PrintedName(ref);
      }
    }
  }

  /** 0.0.11 backfills every row of the fields and of the arguments. */
  lemma BackfillsRows(d: Db, d': Db, k: seq<Value>)
    requires ExecAll(SCRIPT_11, d) == Some(d')
    ensures Backfilled(d, d', SchemaFields, "field_type_name", "field_type", k)
    ensures Backfilled(d, d', SchemaArguments, "arg_type_name", "arg_type", k)
  {
    hide *;
    Leaves11(d, d');
    FillsNames(d, d', SchemaFields, "field_type_name", "field_type", k);
    FillsNames(d, d', SchemaArguments, "arg_type_name", "arg_type", k);
  }
}
