/**
 * Rows on both sides of the migration, the conversion done when an insert is
 * bound, and the canonical text of a row that the content digest is taken over.
 */
module Rows {
  import opened Wrappers
  import opened Text

  /** A SQLite value. Reals and blobs decode as none of the types the tool asks for. */
  datatype Stored = Null | Int(i: int) | Text(s: string) | Undecodable

  /** A PostgreSQL value of one of the column types the target schema uses. */
  datatype Cell = Nil | Bool(b: bool) | Int4(i4: int) | Int8(i8: int) | Str(str: string)

  /**
   * What a driver answers when a row is asked for a column as each type:
   * outer None is a decode error, inner None is SQL NULL.
   */
  datatype View = View(asBool: Option<Option<bool>>, asI64: Option<Option<int>>,
                       asI32: Option<Option<int>>, asText: Option<Option<string>>)

  function SqliteView(v: Stored): View {
    match v
    case Null => View(Some(None), Some(None), Some(None), Some(None))
    case Int(i) => View(Some(Some(i != 0)), Some(Some(i)), Some(Some(i)), None)
    case Text(s) => View(None, None, None, Some(Some(s)))
    case Undecodable => View(None, None, None, None)
  }

  function PostgresView(c: Cell): View {
    match c
    case Nil => View(Some(None), Some(None), Some(None), Some(None))
    case Bool(b) => View(Some(Some(b)), None, None, None)
    case Int4(i) => View(None, None, Some(Some(i)), None)
    case Int8(i) => View(None, Some(Some(i)), None, None)
    case Str(s) => View(None, None, None, Some(Some(s)))
  }

  predicate IsFlag(column: string) {
    column == "auto_commit" || column == "active"
  }

  predicate IsInteger(column: string) {
    column == "step_index" || column == "entry_id"
  }

  // ---- canonical text ----

  function BoolText(b: bool): string {
    if b then "true" else "false"
  }

  function FlagText(v: Option<bool>): string {
    if v.Some? then BoolText(v.value) else "NULL"
  }

  function TruthText(v: Option<int>): string {
    if v.Some? then BoolText(v.value != 0) else "NULL"
  }

  function IntText(v: Option<int>): string {
    if v.Some? then SignedDecimal(v.value) else "NULL"
  }

  /** One value's text: the first type that decodes decides; None is a canonicalization error. */
  function CanonicalCell(column: string, v: View): Option<string> {
    if IsFlag(column) then
      if v.asBool.Some? then Some(FlagText(v.asBool.value))
      else if v.asI64.Some? then Some(TruthText(v.asI64.value))
      else if v.asI32.Some? then Some(TruthText(v.asI32.value))
      else None
    else if IsInteger(column) then
      if v.asI64.Some? then Some(IntText(v.asI64.value))
      else if v.asI32.Some? then Some(IntText(v.asI32.value))
      else None
    else
      if v.asText.Some? then Some(v.asText.value.GetOr("NULL")) else None
  }

  function Parts(columns: seq<string>, row: seq<View>): (r: Option<seq<string>>)
    requires |columns| == |row|
    ensures r.Some? ==> |r.value| == |columns|
    ensures r.Some? <==> forall i | 0 <= i < |row| :: CanonicalCell(columns[i], row[i]).Some?
    ensures r.Some? ==> forall i | 0 <= i < |row| ::
                          r.value[i] == columns[i] + "=" + CanonicalCell(columns[i], row[i]).value
  {
    if columns == [] then Some([])
    else
      var n := |columns| - 1;
      var front := Parts(columns[..n], row[..n]);
      var last := CanonicalCell(columns[n], row[n]);
      assert front.None? ==> exists i | 0 <= i < n :: CanonicalCell(columns[..n][i], row[..n][i]).None?;
      if front.Some? && last.Some? then Some(front.value + [columns[n] + "=" + last.value]) else None
  }

  /** A row that lacks a selected column fails to decode like any other. */
  function CanonicalRow(columns: seq<string>, row: seq<View>): Option<string> {
    if |columns| != |row| then None
    else
      var parts := Parts(columns, row);
      if parts.Some? then Some(Join(parts.value, ";")) else None
  }

  /** The loop over the selected columns, stopping at the first value that does not decode. */
  method RenderRow(columns: seq<string>, row: seq<View>) returns (r: Option<string>)
    ensures r == CanonicalRow(columns, row)
  {
    if |columns| != |row| {
      return None;
    }
    var parts: seq<string> := [];
    for i := 0 to |columns|
      invariant Parts(columns[..i], row[..i]) == Some(parts)
    {
      var text := CanonicalCell(columns[i], row[i]);
      assert columns[..i + 1][..i] == columns[..i] && row[..i + 1][..i] == row[..i];
      if text.None? {
        return None;
      }
      parts := parts + [columns[i] + "=" + text.value];
    }
    assert columns[..|columns|] == columns && row[..|row|] == row;
    return Some(Join(parts, ";"));
  }

  // ---- conversion ----

  /** Binding one parameter of the insert, and the value the target column then holds. */
  function ConvertCell(column: string, v: Stored): Option<Cell> {
    var view := SqliteView(v);
    if IsFlag(column) then
      if view.asI64.None? then None
      else if view.asI64.value.None? then Some(Nil) else Some(Bool(view.asI64.value.value != 0))
    else if IsInteger(column) then
      if view.asI64.None? then None
      else if view.asI64.value.None? then Some(Nil)
      else if column == "step_index" then Some(Int4(view.asI64.value.value))
      else Some(Int8(view.asI64.value.value))
    else
      if view.asText.None? then None
      else if view.asText.value.None? then Some(Nil) else Some(Str(view.asText.value.value))
  }

  type StoredRow = seq<Stored>
  type Row = seq<Cell>

  predicate Binds(columns: seq<string>, row: StoredRow) {
    |row| == |columns| && forall i | 0 <= i < |row| :: ConvertCell(columns[i], row[i]).Some?
  }

  function Convert(columns: seq<string>, row: StoredRow): (r: Row)
    requires Binds(columns, row)
    ensures |r| == |columns|
  {
    seq(|row|, i requires 0 <= i < |row| => ConvertCell(columns[i], row[i]).value)
  }

  function SourceViews(row: StoredRow): seq<View> {
    seq(|row|, i requires 0 <= i < |row| => SqliteView(row[i]))
  }

  function TargetViews(row: Row): seq<View> {
    seq(|row|, i requires 0 <= i < |row| => PostgresView(row[i]))
  }

  lemma ConvertCellKeepsText(column: string, v: Stored)
    ensures ConvertCell(column, v).Some? <==> CanonicalCell(column, SqliteView(v)).Some?
    ensures ConvertCell(column, v).Some? ==>
              CanonicalCell(column, PostgresView(ConvertCell(column, v).value)) == CanonicalCell(column, SqliteView(v))
  {
  }

  /**
   * A row binds exactly when it canonicalises, and the converted row reads
   * back from PostgreSQL with the very text the SQLite row has.
   */
  lemma ConversionKeepsText(columns: seq<string>, row: StoredRow)
    ensures Binds(columns, row) <==> CanonicalRow(columns, SourceViews(row)).Some?
    ensures Binds(columns, row) ==>
              CanonicalRow(columns, TargetViews(Convert(columns, row))) == CanonicalRow(columns, SourceViews(row))
  {
    if |row| != |columns| {
      return;
    }
    forall i | 0 <= i < |row|
      ensures ConvertCell(columns[i], row[i]).Some? <==> CanonicalCell(columns[i], SourceViews(row)[i]).Some?
      ensures ConvertCell(columns[i], row[i]).Some? ==>
                CanonicalCell(columns[i], PostgresView(ConvertCell(columns[i], row[i]).value))
                == CanonicalCell(columns[i], SourceViews(row)[i])
    {
      ConvertCellKeepsText(columns[i], row[i]);
    }
    if Binds(columns, row) {
      var c := TargetViews(Convert(columns, row));
      assert Parts(columns, c).value == Parts(columns, SourceViews(row)).value;
    }
  }

  // ---- what each column stores and how it is written ----

  /** A flag stores whether its integer is not zero, and is written as the word. */
  lemma FlagsExact(column: string, i: int)
    requires column == "auto_commit" || column == "active"
    ensures ConvertCell(column, Int(i)) == Some(Bool(i != 0))
    ensures CanonicalCell(column, SqliteView(Int(i))) == Some(if i != 0 then "true" else "false")
  {
  }

  /** An integer column stores its integer, in its own width, and is written in decimal. */
  lemma IntegersExact(i: int)
    ensures ConvertCell("step_index", Int(i)) == Some(Int4(i)) && ConvertCell("entry_id", Int(i)) == Some(Int8(i))
    ensures CanonicalCell("step_index", SqliteView(Int(i))) == CanonicalCell("entry_id", SqliteView(Int(i)))
    ensures var t := CanonicalCell("step_index", SqliteView(Int(i))); t.Some? && WritesNumber(t.value, i)
  {
    assert |"step_index"| == 10 && |"entry_id"| == 8 && |"auto_commit"| == 11 && |"active"| == 6;
    SignedDecimalExact(i);
  }

  /** Every other column stores its text and is written as it is. */
  lemma TextsExact(column: string, t: string)
    requires column != "auto_commit" && column != "active" && column != "step_index" && column != "entry_id"
    ensures ConvertCell(column, Text(t)) == Some(Str(t)) && CanonicalCell(column, SqliteView(Text(t))) == Some(t)
  {
  }

  /** A null is a null everywhere; nothing else binds where it is not of the column's kind. */
  lemma OthersExact(column: string, v: Stored)
    ensures ConvertCell(column, Null) == Some(Nil) && CanonicalCell(column, SqliteView(Null)) == Some("NULL")
    ensures ConvertCell(column, v).None? <==>
              || v == Undecodable
              || (v.Text? && column in {"auto_commit", "active", "step_index", "entry_id"})
              || (v.Int? && column !in {"auto_commit", "active", "step_index", "entry_id"})
  {
  }
}
