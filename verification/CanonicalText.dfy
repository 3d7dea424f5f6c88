/**
 * What the canonical text of a row says about the row. Values are written one
 * after the other as name=value with semicolons between, and nothing is
 * escaped, so a text value can hold what looks like the next columns. A row is
 * ambiguous when one of its texts can be cut so that the rest reads on; these
 * are exactly the rows that share their canonical text with a row that is not.
 */
module CanonicalText {
  import opened Wrappers
  import opened Text
  import opened Rows

  /** The cells a column of the target schema can hold. */
  predicate WellTyped(column: string, c: Cell) {
    c.Nil? || (if IsFlag(column) then c.Bool? else if column == "step_index" then c.Int4?
               else if column == "entry_id" then c.Int8? else c.Str?)
  }

  ghost predicate WellTypedRow(columns: seq<string>, row: Row) {
    |row| == |columns| && forall i | 0 <= i < |row| :: WellTyped(columns[i], row[i])
  }

  predicate IsText(column: string) {
    !IsFlag(column) && !IsInteger(column)
  }

  /** The text that ends column i's value: a semicolon, the next column's name, an equals sign. */
  function Boundary(columns: seq<string>, i: nat): string
    requires i + 1 < |columns|
  {
    ";" + columns[i + 1] + "="
  }

  predicate IsName(s: string) {
    ';' !in s && '=' !in s
  }

  /** Names of the columns of one table. */
  ghost predicate ColumnNames(columns: seq<string>) {
    && (forall i | 0 <= i < |columns| :: IsName(columns[i]))
    && forall i, j | 0 <= i < j < |columns| :: columns[i] != columns[j]
  }

  function CellText(column: string, c: Cell): string
    requires WellTyped(column, c)
  {
    CanonicalCell(column, PostgresView(c)).value
  }

  lemma ConvertedRowsAreWellTyped(columns: seq<string>, row: StoredRow)
    requires Binds(columns, row)
    ensures WellTypedRow(columns, Convert(columns, row))
  {
  }

  // ---- the exact condition ----

  /**
   * A text that could stand from column i on: a value of each flag or integer
   * column with the boundary after it, as far as the next text column, which takes anything.
   */
  ghost predicate ReadsOn(columns: seq<string>, i: nat, t: string)
    requires i < |columns|
    decreases |columns| - i
  {
    || IsText(columns[i])
    || (i + 1 < |columns| && exists c: Cell :: WellTyped(columns[i], c) && ReadsOnAfter(columns, i, t, c))
  }

  ghost predicate ReadsOnAfter(columns: seq<string>, i: nat, t: string, c: Cell)
    requires i + 1 < |columns| && WellTyped(columns[i], c)
    decreases |columns| - i, 0
  {
    var head := CellText(columns[i], c) + Boundary(columns, i);
    head <= t && ReadsOn(columns, i + 1, t[|head|..])
  }

  /** The text of column i holds its boundary at k, and what follows that reads on. */
  ghost predicate CutsAt(columns: seq<string>, i: nat, s: string, k: nat)
    requires i + 1 < |columns|
  {
    var sep := Boundary(columns, i);
    k + |sep| <= |s| && s[k..][..|sep|] == sep && ReadsOn(columns, i + 1, s[k + |sep|..])
  }

  ghost predicate AmbiguousCell(columns: seq<string>, i: nat, c: Cell)
    requires i < |columns|
  {
    c.Str? && (c.str == "NULL" || (i + 1 < |columns| && exists k: nat :: CutsAt(columns, i, c.str, k)))
  }

  ghost predicate Ambiguous(columns: seq<string>, row: Row)
    requires |row| == |columns|
  {
    exists i | 0 <= i < |row| :: AmbiguousCell(columns, i, row[i])
  }

  // ---- the text column by column ----

  /** The canonical text after column i's name and equals sign. */
  ghost function Tail(columns: seq<string>, row: Row, i: nat): string
    requires WellTypedRow(columns, row) && i < |row|
    decreases |row| - i
  {
    CellText(columns[i], row[i]) + (if i + 1 == |row| then "" else Boundary(columns, i) + Tail(columns, row, i + 1))
  }

  lemma WellTypedRowCanonicalises(columns: seq<string>, row: Row)
    requires WellTypedRow(columns, row)
    ensures CanonicalRow(columns, TargetViews(row)).Some?
  {
    var views := TargetViews(row);
    forall k | 0 <= k < |row|
      ensures CanonicalCell(columns[k], views[k]).Some?
    {
      assert WellTyped(columns[k], row[k]);
    }
  }

  lemma JoinStep(parts: seq<string>, i: nat, name: string, value: string, next: string, tail: string)
    requires i + 1 < |parts| && parts[i] == name + "=" + value
    requires Join(parts[i + 1..], ";") == next + "=" + tail
    ensures Join(parts[i..], ";") == name + "=" + (value + (";" + next + "=" + tail))
  {
    assert parts[i..][1..] == parts[i + 1..];
    assert Join(parts[i..], ";") == parts[i] + ";" + (next + "=" + tail);
  }

  lemma PartsOf(columns: seq<string>, row: Row) returns (parts: seq<string>)
    requires WellTypedRow(columns, row)
    ensures Parts(columns, TargetViews(row)) == Some(parts) && |parts| == |columns|
    ensures forall i | 0 <= i < |row| :: parts[i] == columns[i] + "=" + CellText(columns[i], row[i])
  {
    WellTypedRowCanonicalises(columns, row);
    parts := Parts(columns, TargetViews(row)).value;
  }

  lemma {:induction false} TailIsJoin(columns: seq<string>, row: Row, i: nat, parts: seq<string>)
    requires WellTypedRow(columns, row) && i < |row| && |parts| == |columns|
    requires forall j | 0 <= j < |row| :: parts[j] == columns[j] + "=" + CellText(columns[j], row[j])
    ensures columns[i] + "=" + Tail(columns, row, i) == Join(parts[i..], ";")
    decreases |row| - i
  {
    if i + 1 < |row| {
      TailIsJoin(columns, row, i + 1, parts);
      JoinStep(parts, i, columns[i], CellText(columns[i], row[i]), columns[i + 1], Tail(columns, row, i + 1));
    }
  }

  lemma WholeText(columns: seq<string>, row: Row)
    requires WellTypedRow(columns, row) && columns != []
    ensures CanonicalRow(columns, TargetViews(row)) == Some(columns[0] + "=" + Tail(columns, row, 0))
  {
    var parts := PartsOf(columns, row);
    TailIsJoin(columns, row, 0, parts);
    assert parts[0..] == parts;
  }

  ghost predicate SameText(columns: seq<string>, a: Row, b: Row) {
    CanonicalRow(columns, TargetViews(a)) == CanonicalRow(columns, TargetViews(b))
  }

  lemma SameTextIsSameTail(columns: seq<string>, a: Row, b: Row)
    requires WellTypedRow(columns, a) && WellTypedRow(columns, b) && columns != []
    ensures SameText(columns, a, b) <==> Tail(columns, a, 0) == Tail(columns, b, 0)
  {
    WholeText(columns, a);
    WholeText(columns, b);
    var head := columns[0] + "=";
    assert (head + Tail(columns, a, 0))[|head|..] == Tail(columns, a, 0);
    assert (head + Tail(columns, b, 0))[|head|..] == Tail(columns, b, 0);
  }

  /** Equal cells from column i on give equal text there. */
  lemma {:induction false} SameCellsSameTail(columns: seq<string>, a: Row, b: Row, i: nat)
    requires WellTypedRow(columns, a) && WellTypedRow(columns, b) && i < |columns|
    requires forall j | i <= j < |columns| :: a[j] == b[j]
    ensures Tail(columns, a, i) == Tail(columns, b, i)
    decreases |columns| - i
  {
    if i + 1 < |columns| {
      SameCellsSameTail(columns, a, b, i + 1);
    }
  }

  // ---- single values ----

  lemma CellTextInjective(column: string, a: Cell, b: Cell)
    requires WellTyped(column, a) && WellTyped(column, b)
    requires a.Str? ==> a.str != "NULL"
    requires b.Str? ==> b.str != "NULL"
    requires CellText(column, a) == CellText(column, b)
    ensures a == b
  {
    if a.Int4? { SignedDecimalChars(a.i4); }
    if b.Int4? { SignedDecimalChars(b.i4); }
    if a.Int8? { SignedDecimalChars(a.i8); }
    if b.Int8? { SignedDecimalChars(b.i8); }
    assert "NULL"[0] == 'N' && !IsDigit('N');
    if a.Int4? && b.Int4? { SignedDecimalInjective(a.i4, b.i4); }
    if a.Int8? && b.Int8? { SignedDecimalInjective(a.i8, b.i8); }
    assert "true"[0] != "false"[0];
    assert "NULL"[0] != "true"[0] && "NULL"[0] != "false"[0];
  }

  /** A value that is not text has no semicolon. */
  lemma PlainCellHasNoSemicolon(column: string, c: Cell)
    requires WellTyped(column, c) && !c.Str?
    ensures ';' !in CellText(column, c)
  {
    if c.Int4? { SignedDecimalChars(c.i4); }
    if c.Int8? { SignedDecimalChars(c.i8); }
  }

  // ---- an ambiguous row has another reading ----

  lemma Regroup(v: string, sep: string, t: string, m: string, x: string, rest: string)
    ensures v + (sep + (t + (m + x + sep) + rest)) == (v + sep + t) + m + (x + (sep + rest))
  {
  }

  lemma RegroupCell(t: string, m: string, x: string, rest: string)
    ensures (t + m + x) + rest == t + m + (x + rest)
  {
  }

  lemma PutCell(columns: seq<string>, a: Row, later: Row, i: nat, c: Cell) returns (b: Row)
    requires WellTypedRow(columns, later) && i + 1 < |columns| && WellTyped(columns[i], c)
    requires |a| == |columns| && later[..i + 1] == a[..i + 1]
    ensures WellTypedRow(columns, b) && b[..i] == a[..i] && b[i] == c
    ensures Tail(columns, b, i) == CellText(columns[i], c) + (Boundary(columns, i) + Tail(columns, later, i + 1))
  {
    b := later[i := c];
    SameCellsSameTail(columns, later, b, i + 1);
    assert b[..i] == later[..i + 1][..i] == a[..i + 1][..i] == a[..i];
  }

  /**
   * Text t that reads on from column i, and any text m after it, can be put in
   * front of what a row holds there.
   */
  lemma {:induction false} PutInFront(columns: seq<string>, a: Row, i: nat, t: string, m: string) returns (b: Row)
    requires WellTypedRow(columns, a) && i < |columns| && ReadsOn(columns, i, t)
    ensures WellTypedRow(columns, b) && b[..i] == a[..i]
    ensures Tail(columns, b, i) == t + m + Tail(columns, a, i)
    decreases |columns| - i
  {
    if IsText(columns[i]) {
      b := a[i := Str(t + m + CellText(columns[i], a[i]))];
      if i + 1 < |columns| {
        SameCellsSameTail(columns, a, b, i + 1);
      }
      var rest := if i + 1 == |a| then "" else Boundary(columns, i) + Tail(columns, a, i + 1);
      RegroupCell(t, m, CellText(columns[i], a[i]), rest);
    } else {
      var c: Cell :| WellTyped(columns[i], c) && ReadsOnAfter(columns, i, t, c);
      b := PutValueInFront(columns, a, i, t, m, c);
    }
  }

  lemma {:induction false} PutValueInFront(columns: seq<string>, a: Row, i: nat, t: string, m: string, c: Cell)
    returns (b: Row)
    requires WellTypedRow(columns, a) && i + 1 < |columns|
    requires WellTyped(columns[i], c) && ReadsOnAfter(columns, i, t, c)
    ensures WellTypedRow(columns, b) && b[..i] == a[..i]
    ensures Tail(columns, b, i) == t + m + Tail(columns, a, i)
    decreases |columns| - i, 0
  {
    var v, sep, x := CellText(columns[i], c), Boundary(columns, i), CellText(columns[i], a[i]);
    var rest := t[|v + sep|..];
    assert t == v + sep + rest;
    var later := PutInFront(columns, a, i + 1, rest, m + x + sep);
    b := PutCell(columns, a, later, i, c);
    Regroup(v, sep, rest, m, x, Tail(columns, a, i + 1));
  }

  /** Cutting a text where it can be cut gives a row with the same text and a shorter value there. */
  lemma CutText(columns: seq<string>, a: Row, i: nat, k: nat) returns (b: Row)
    requires WellTypedRow(columns, a) && i + 1 < |columns| && a[i].Str? && CutsAt(columns, i, a[i].str, k)
    ensures WellTypedRow(columns, b) && b[..i] == a[..i] && Tail(columns, b, i) == Tail(columns, a, i)
    ensures |CellText(columns[i], b[i])| < |CellText(columns[i], a[i])|
  {
    assert WellTyped(columns[i], a[i]);
    var s, sep := a[i].str, Boundary(columns, i);
    var later := PutInFront(columns, a, i + 1, s[k + |sep|..], sep);
    b := PutCell(columns, a, later, i, Str(s[..k]));
    RegroupCut(s, sep, k, Tail(columns, a, i + 1));
  }

  lemma RegroupCut(s: string, sep: string, k: nat, rest: string)
    requires k + |sep| <= |s| && s[k..][..|sep|] == sep
    ensures s[..k] + (sep + (s[k + |sep|..] + sep + rest)) == s + (sep + rest)
  {
    assert s == s[..k] + sep + s[k + |sep|..];
  }

  function Weight(column: string, c: Cell): nat
    requires WellTyped(column, c)
  {
    2 * |CellText(column, c)| + if c == Str("NULL") then 1 else 0
  }

  /** An ambiguous value can be replaced by a smaller one under the same text. */
  lemma Lighten(columns: seq<string>, a: Row, i: nat) returns (b: Row)
    requires WellTypedRow(columns, a) && i < |columns| && AmbiguousCell(columns, i, a[i])
    ensures WellTypedRow(columns, b) && b[..i] == a[..i] && Tail(columns, b, i) == Tail(columns, a, i)
    ensures Weight(columns[i], b[i]) < Weight(columns[i], a[i])
  {
    if a[i] == Str("NULL") {
      NullText(columns, a, i);
      b := a[i := Nil];
    } else {
      var k: nat :| CutsAt(columns, i, a[i].str, k);
      b := CutText(columns, a, i, k);
    }
  }

  /** Every row has the text of a row that is not ambiguous from column i on. */
  lemma {:induction false} Settle(columns: seq<string>, a: Row, i: nat) returns (b: Row)
    requires WellTypedRow(columns, a) && i <= |columns|
    ensures WellTypedRow(columns, b) && b[..i] == a[..i]
    ensures i < |columns| ==> Tail(columns, b, i) == Tail(columns, a, i)
    ensures forall j | i <= j < |columns| :: !AmbiguousCell(columns, j, b[j])
    decreases |columns| - i, if i < |columns| then Weight(columns[i], a[i]) else 0
  {
    if i == |columns| {
      b := a;
    } else if AmbiguousCell(columns, i, a[i]) {
      var lighter := Lighten(columns, a, i);
      b := Settle(columns, lighter, i);
    } else {
      b := Settle(columns, a, i + 1);
      KeptFront(a, b, i);
    }
  }

  lemma NullText(columns: seq<string>, a: Row, i: nat)
    requires WellTypedRow(columns, a) && i < |columns| && a[i] == Str("NULL")
    ensures WellTypedRow(columns, a[i := Nil]) && a[i := Nil][..i] == a[..i]
    ensures Tail(columns, a[i := Nil], i) == Tail(columns, a, i)
    ensures CellText(columns[i], Nil) == CellText(columns[i], a[i])
  {
    assert WellTyped(columns[i], a[i]);
    if i + 1 < |columns| {
      SameCellsSameTail(columns, a, a[i := Nil], i + 1);
    }
  }

  lemma KeptFront(a: Row, b: Row, i: nat)
    requires i < |a| && i < |b| && b[..i + 1] == a[..i + 1]
    ensures b[i] == a[i] && b[..i] == a[..i]
  {
    assert b[i] == b[..i + 1][i] == a[..i + 1][i] == a[i];
    assert b[..i] == b[..i + 1][..i] == a[..i + 1][..i] == a[..i];
  }

  // ---- two rows that are not ambiguous are told apart ----

  lemma SameNames(x: string, p: string, y: string, q: string)
    requires '=' !in x && '=' !in y && x + "=" + p == y + "=" + q
    ensures x == y
  {
    var s, t := x + "=" + p, y + "=" + q;
    assert s[|x|] == '=' && t[|y|] == '=';
    assert |x| == |y|;
    assert x == s[..|x|] && y == t[..|y|];
  }

  /** A value without a semicolon before one boundary, inside a text that goes on with another boundary. */
  lemma ValueEndsInside(v: string, n: string, p: string, y: string, m: string, q: string)
    requires ';' !in v && IsName(n) && IsName(m) && n != m
    requires v + (";" + n + "=" + p) == y + (";" + m + "=" + q)
    ensures var head := v + (";" + n + "=");
            head <= y && p == y[|head|..] + (";" + m + "=" + q)
  {
    var s, head := v + (";" + n + "=" + p), v + (";" + n + "=");
    assert s[|y|] == ';';
    if |y| == |v| {
      assert s[|v| + 1..] == n + "=" + p;
      assert s[|y| + 1..] == m + "=" + q;
      SameNames(n, p, m, q);
    }
    assert |v| < |y|;
    forall j | |v| < j < |head|
      ensures s[j] != ';'
    {
      assert s[j] == (n + "=")[j - |v| - 1];
    }
    assert |head| <= |y|;
    assert head == s[..|head|] == y[..|head|];
    assert p == s[|head|..];
  }

  /** What a row holds from column i on, up to a boundary of an earlier column, reads on. */
  lemma {:induction false} HeldReadsOn(columns: seq<string>, b: Row, i: nat, y: string, j: nat, q: string)
    requires ColumnNames(columns) && WellTypedRow(columns, b) && j < i < |columns|
    requires Tail(columns, b, i) == y + (Boundary(columns, j) + q)
    ensures ReadsOn(columns, i, y)
    decreases |columns| - i
  {
    if !IsText(columns[i]) {
      var v := CellText(columns[i], b[i]);
      PlainCellHasNoSemicolon(columns[i], b[i]);
      assert (y + (Boundary(columns, j) + q))[|y|] == ';';
      assert i + 1 < |columns|;
      var p := Tail(columns, b, i + 1);
      assert columns[j + 1] != columns[i + 1];
      assert Boundary(columns, i) + p == ";" + columns[i + 1] + "=" + p;
      assert Boundary(columns, j) + q == ";" + columns[j + 1] + "=" + q;
      ValueEndsInside(v, columns[i + 1], p, y, columns[j + 1], q);
      var head := v + Boundary(columns, i);
      assert p == y[|head|..] + (Boundary(columns, j) + q);
      HeldReadsOn(columns, b, i + 1, y[|head|..], j, q);
      assert ReadsOnAfter(columns, i, y, b[i]);
    }
  }

  /** Of two readings of one text, the one that cuts later is ambiguous there. */
  lemma LaterCutIsAmbiguous(columns: seq<string>, a: Row, b: Row, i: nat)
    requires ColumnNames(columns) && WellTypedRow(columns, a) && WellTypedRow(columns, b) && i < |columns|
    requires Tail(columns, a, i) == Tail(columns, b, i)
    requires |CellText(columns[i], b[i])| < |CellText(columns[i], a[i])|
    ensures AmbiguousCell(columns, i, a[i])
  {
    var s, x := CellText(columns[i], a[i]), CellText(columns[i], b[i]);
    assert i + 1 < |columns|;
    var sep := Boundary(columns, i);
    var p, q := Tail(columns, b, i + 1), Tail(columns, a, i + 1);
    LaterCut(x, sep, p, s, q);
    assert s[|x|] == ';';
    if !a[i].Str? {
      PlainCellHasNoSemicolon(columns[i], a[i]);
      assert false;
    }
    HeldReadsOn(columns, b, i + 1, s[|x| + |sep|..], i, q);
    assert CutsAt(columns, i, s, |x|);
  }

  lemma LaterCut(x: string, sep: string, p: string, s: string, q: string)
    requires sep != [] && sep[0] == ';' && ';' !in sep[1..]
    requires |x| < |s| && x + (sep + p) == s + (sep + q)
    ensures |x| + |sep| <= |s| && s[|x|..][..|sep|] == sep && s[|x|] == ';'
    ensures p == s[|x| + |sep|..] + (sep + q)
  {
    var w := s + (sep + q);
    assert w[|s|] == ';';
    forall j | |x| < j < |x| + |sep|
      ensures w[j] != ';'
    {
      assert w[j] == (x + (sep + p))[j] == sep[j - |x|] == sep[1..][j - |x| - 1];
    }
    assert w[|x|..][..|sep|] == sep;
    assert s == w[..|s|];
    assert p == w[|x| + |sep|..];
  }

  lemma DropHead(v: string, sep: string, p: string, q: string)
    requires v + (sep + p) == v + (sep + q)
    ensures p == q
  {
    var head := v + sep;
    assert (v + (sep + p))[|head|..] == p && (v + (sep + q))[|head|..] == q;
  }

  lemma FirstCell(columns: seq<string>, a: Row, b: Row, i: nat)
    requires ColumnNames(columns) && WellTypedRow(columns, a) && WellTypedRow(columns, b) && i < |columns|
    requires !AmbiguousCell(columns, i, a[i]) && !AmbiguousCell(columns, i, b[i])
    requires Tail(columns, a, i) == Tail(columns, b, i)
    ensures a[i] == b[i]
  {
    var s, x := CellText(columns[i], a[i]), CellText(columns[i], b[i]);
    if |x| < |s| {
      LaterCutIsAmbiguous(columns, a, b, i);
    } else if |s| < |x| {
      LaterCutIsAmbiguous(columns, b, a, i);
    }
    assert s == Tail(columns, a, i)[..|s|] == Tail(columns, b, i)[..|s|] == x;
    CellTextInjective(columns[i], a[i], b[i]);
  }

  lemma {:induction false} TailTellsApart(columns: seq<string>, a: Row, b: Row, i: nat)
    requires ColumnNames(columns) && WellTypedRow(columns, a) && WellTypedRow(columns, b) && i < |columns|
    requires !Ambiguous(columns, a) && !Ambiguous(columns, b)
    requires Tail(columns, a, i) == Tail(columns, b, i)
    ensures a[i..] == b[i..]
    decreases |columns| - i
  {
    FirstCell(columns, a, b, i);
    if i + 1 < |columns| {
      DropHead(CellText(columns[i], a[i]), Boundary(columns, i), Tail(columns, a, i + 1), Tail(columns, b, i + 1));
      TailTellsApart(columns, a, b, i + 1);
    }
    assert a[i..] == [a[i]] + a[i + 1..] && b[i..] == [b[i]] + b[i + 1..];
  }

  /** Equal canonical texts of rows that are not ambiguous are equal rows. */
  lemma CanonicalRowInjective(columns: seq<string>, a: Row, b: Row)
    requires ColumnNames(columns) && WellTypedRow(columns, a) && WellTypedRow(columns, b)
    requires !Ambiguous(columns, a) && !Ambiguous(columns, b) && SameText(columns, a, b)
    ensures a == b
  {
    if columns != [] {
      SameTextIsSameTail(columns, a, b);
      TailTellsApart(columns, a, b, 0);
      assert a[0..] == a && b[0..] == b;
    }
  }

  /** Some other row, not ambiguous itself, is written the same. */
  ghost predicate Mistakable(columns: seq<string>, a: Row) {
    exists b: Row | WellTypedRow(columns, b) :: SameText(columns, a, b) && b != a && !Ambiguous(columns, b)
  }

  /**
   * The condition is exact: every canonical text belongs to one row that is
   * not ambiguous, and the rows that are taken for it are the ambiguous ones.
   */
  lemma AmbiguousExact(columns: seq<string>, a: Row)
    requires ColumnNames(columns) && WellTypedRow(columns, a)
    ensures Ambiguous(columns, a) <==> Mistakable(columns, a)
  {
    if Ambiguous(columns, a) {
      var b := Settle(columns, a, 0);
      SameTextIsSameTail(columns, a, b);
    } else if Mistakable(columns, a) {
      var b: Row :| WellTypedRow(columns, b) && SameText(columns, a, b) && b != a && !Ambiguous(columns, b);
      CanonicalRowInjective(columns, a, b);
    }
  }
}
