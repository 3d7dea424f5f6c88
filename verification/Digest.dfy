/** The order-independent content digest of a table, computed in LIMIT/OFFSET chunks. */
module Digest {
  import opened Wrappers
  import opened Seqs
  import opened Sorting
  import opened Text
  import opened Rows

  /** SHA-256 in lower-case hexadecimal, left uninterpreted. */
  type Sha = string -> string

  predicate IsHex(s: string) {
    s != [] && forall i | 0 <= i < |s| :: '0' <= s[i] <= '9' || 'a' <= s[i] <= 'f'
  }

  ghost predicate HexDigests(sha: Sha) {
    forall s: string :: IsHex(sha(s))
  }

  function Joined(hashes: seq<string>): string {
    Join(Sort(StringLe, hashes), "\n")
  }

  function AggregateHash(sha: Sha, hashes: seq<string>): string {
    sha(Joined(hashes))
  }

  /** The text hashed over a list of items determines the items up to order, and nothing but them. */
  lemma JoinedExact(g: seq<string>, h: seq<string>)
    requires Lines(g) && Lines(h)
    ensures Joined(g) == Joined(h) <==> multiset(g) == multiset(h)
  {
    StringLeOrder();
    SortPermutation(StringLe, g, h);
    SortedLines(g);
    SortedLines(h);
    if Joined(g) == Joined(h) {
      JoinLinesInjective(Sort(StringLe, g), Sort(StringLe, h));
    }
  }

  lemma SortedLines(h: seq<string>)
    requires Lines(h)
    ensures Lines(Sort(StringLe, h))
  {
    var s := Sort(StringLe, h);
    forall i | 0 <= i < |s|
      ensures s[i] != [] && '\n' !in s[i]
    {
      assert s[i] in multiset(s);
      var k := IndexOf(h, s[i]);
    }
  }

  // ---- the digest of a table ----

  /** The canonical texts of all rows, or None when some row does not canonicalise. */
  function Texts(columns: seq<string>, table: seq<seq<View>>): (r: Option<seq<string>>)
    ensures r.Some? <==> forall i | 0 <= i < |table| :: CanonicalRow(columns, table[i]).Some?
    ensures r.Some? ==> |r.value| == |table| &&
                        forall i | 0 <= i < |table| :: CanonicalRow(columns, table[i]) == Some(r.value[i])
  {
    if table == [] then Some([])
    else
      var n := |table| - 1;
      var front := Texts(columns, table[..n]);
      var last := CanonicalRow(columns, table[n]);
      assert front.None? ==> exists i | 0 <= i < n :: CanonicalRow(columns, table[..n][i]).None?;
      if front.Some? && last.Some? then Some(front.value + [last.value]) else None
  }

  /** The hash of each row. */
  function RowHashes(sha: Sha, columns: seq<string>, table: seq<seq<View>>): Option<seq<string>> {
    var texts := Texts(columns, table);
    if texts.Some? then Some(Map(sha, texts.value)) else None
  }

  function TableDigest(sha: Sha, columns: seq<string>, table: seq<seq<View>>): Option<string> {
    var hashes := RowHashes(sha, columns, table);
    if hashes.Some? then Some(AggregateHash(sha, hashes.value)) else None
  }

  /** The hashing has no collision among these texts, nor between the two joined lists of hashes. */
  ghost predicate CollisionFree(sha: Sha, a: seq<string>, b: seq<string>) {
    && InjectiveOn(sha, a + b)
    && InjectiveOn(sha, [Joined(Map(sha, a)), Joined(Map(sha, b))])
  }

  lemma HashesAreLines(sha: Sha, texts: seq<string>)
    requires HexDigests(sha)
    ensures Lines(Map(sha, texts))
  {
    forall i | 0 <= i < |texts|
      ensures sha(texts[i]) != [] && '\n' !in sha(texts[i])
    {
      assert IsHex(sha(texts[i]));
    }
  }

  /** Two lists of row texts have one digest exactly when each text occurs equally often in both. */
  lemma DigestExact(sha: Sha, a: seq<string>, b: seq<string>)
    requires HexDigests(sha) && CollisionFree(sha, a, b)
    ensures AggregateHash(sha, Map(sha, a)) == AggregateHash(sha, Map(sha, b)) <==> multiset(a) == multiset(b)
  {
    var g, h := Map(sha, a), Map(sha, b);
    HashesAreLines(sha, a);
    HashesAreLines(sha, b);
    JoinedExact(g, h);
    if multiset(a) == multiset(b) {
      MapPermutation(sha, a, b);
    }
    if AggregateHash(sha, g) == AggregateHash(sha, h) {
      var js := [Joined(g), Joined(h)];
      assert js[0] in js && js[1] in js;
      assert multiset(g) == multiset(h);
      MapCancel(sha, a, b);
    }
  }

  /** One direction needs nothing of the hash function: the same texts in any order give one digest. */
  lemma DigestOrderFree(sha: Sha, a: seq<string>, b: seq<string>)
    requires multiset(a) == multiset(b)
    ensures AggregateHash(sha, Map(sha, a)) == AggregateHash(sha, Map(sha, b))
  {
    MapPermutation(sha, a, b);
    StringLeOrder();
    SortPermutation(StringLe, Map(sha, a), Map(sha, b));
  }

  // ---- the chunked computation ----

  predicate ValidChunkSize(n: int) {
    1 <= n <= 10_000
  }

  /** The hashes of one chunk, up to the first row that does not canonicalise. */
  method ChunkHashes(sha: Sha, columns: seq<string>, rows: seq<seq<View>>) returns (hashes: Option<seq<string>>)
    ensures hashes == RowHashes(sha, columns, rows)
  {
    var found: seq<string> := [];
    NoRowHashes(sha, columns);
    for i := 0 to |rows|
      invariant RowHashes(sha, columns, rows[..i]) == Some(found)
    {
      assert rows[..i + 1] == rows[..i] + [rows[i]];
      RowHashesSplit(sha, columns, rows[..i], [rows[i]]);
      OneRowHash(sha, columns, rows[i]);
      var text := RenderRow(columns, rows[i]);
      if text.None? {
        HeadFails(sha, columns, rows[..i + 1], rows);
        return None;
      }
      found := found + [sha(text.value)];
    }
    assert rows[..|rows|] == rows;
    return Some(found);
  }

  lemma NoRowHashes(sha: Sha, columns: seq<string>)
    ensures RowHashes(sha, columns, []) == Some([])
  {
    assert Map(sha, []) == [];
  }

  lemma OneRowHash(sha: Sha, columns: seq<string>, row: seq<View>)
    ensures RowHashes(sha, columns, [row]) ==
              var text := CanonicalRow(columns, row); if text.None? then None else Some([sha(text.value)])
  {
    var one := [row];
    assert one[..0] == [] && one[0] == row;
    if CanonicalRow(columns, row).Some? {
      var text := CanonicalRow(columns, row).value;
      assert Texts(columns, one).value == [text];
      assert Map(sha, [text]) == [sha(text)];
    }
  }

  function Both<T>(a: Option<seq<T>>, b: Option<seq<T>>): Option<seq<T>> {
    if a.None? || b.None? then None else Some(a.value + b.value)
  }

  lemma RowHashesSplit(sha: Sha, columns: seq<string>, a: seq<seq<View>>, b: seq<seq<View>>)
    ensures RowHashes(sha, columns, a + b) == Both(RowHashes(sha, columns, a), RowHashes(sha, columns, b))
  {
    TextsSplit(columns, a, b);
    if Texts(columns, a).Some? && Texts(columns, b).Some? {
      MapConcat(sha, Texts(columns, a).value, Texts(columns, b).value);
    }
  }

  lemma TextsSplit(columns: seq<string>, a: seq<seq<View>>, b: seq<seq<View>>)
    ensures Texts(columns, a + b).Some? <==> Texts(columns, a).Some? && Texts(columns, b).Some?
    ensures Texts(columns, a + b).Some? ==> Texts(columns, a + b).value == Texts(columns, a).value + Texts(columns, b).value
  {
    var s := a + b;
    assert forall i | 0 <= i < |a| :: s[i] == a[i];
    assert forall i | 0 <= i < |b| :: s[|a| + i] == b[i];
    if Texts(columns, a).Some? && Texts(columns, b).Some? {
      forall i | 0 <= i < |s|
        ensures CanonicalRow(columns, s[i]).Some?
      {
        assert i >= |a| ==> s[i] == b[i - |a|];
      }
    }
  }

  /** The rows before an offset, which may lie past the end. */
  function RowsBefore<T>(table: seq<T>, offset: nat): seq<T> {
    if offset < |table| then table[..offset] else table
  }

  lemma RowsBeforeGrow<T>(table: seq<T>, chunk: nat, offset: nat)
    requires offset < |table|
    ensures RowsBefore(table, offset + chunk) == RowsBefore(table, offset) + Window(table, chunk, offset)
  {
    if offset + chunk < |table| {
      assert table[..offset + chunk] == table[..offset] + table[offset..offset + chunk];
    } else {
      assert table == table[..offset] + table[offset..];
    }
  }

  /** A row that does not canonicalise fails the table wherever it stands. */
  lemma HeadFails(sha: Sha, columns: seq<string>, head: seq<seq<View>>, table: seq<seq<View>>)
    requires head <= table && RowHashes(sha, columns, head).None?
    ensures RowHashes(sha, columns, table).None?
  {
    assert table == head + table[|head|..];
    TextsSplit(columns, head, table[|head|..]);
  }

  /** The digest is that of the whole table whatever the chunk size. */
  method ContentHash(sha: Sha, columns: seq<string>, table: seq<seq<View>>, chunk: nat) returns (r: Option<string>)
    requires ValidChunkSize(chunk)
    ensures r == TableDigest(sha, columns, table)
  {
    var hashes: seq<string> := [];
    var offset := 0;
    NoRowHashes(sha, columns);
    assert RowsBefore(table, 0) == [];
    while offset < |table|
      invariant 0 <= offset && RowHashes(sha, columns, RowsBefore(table, offset)) == Some(hashes)
    {
      var rows := Window(table, chunk, offset);
      RowsBeforeGrow(table, chunk, offset);
      RowHashesSplit(sha, columns, RowsBefore(table, offset), rows);
      var more := ChunkHashes(sha, columns, rows);
      if more.None? {
        HeadFails(sha, columns, RowsBefore(table, offset + chunk), table);
        return None;
      }
      hashes := hashes + more.value;
      offset := offset + chunk;
    }
    return Some(AggregateHash(sha, hashes));
  }

  /**
   * The digest itself: hash each row's canonical text, sort the hashes, join
   * them by newlines and hash the result.
   */
  lemma DigestMeans(sha: Sha, columns: seq<string>, table: seq<seq<View>>, hashes: seq<string>)
    requires forall i | 0 <= i < |table| :: CanonicalRow(columns, table[i]).Some?
    requires Sorted(StringLe, hashes)
    requires multiset(hashes)
          == multiset(seq(|table|, i requires 0 <= i < |table| => sha(CanonicalRow(columns, table[i]).value)))
    ensures TableDigest(sha, columns, table) == Some(sha(Join(hashes, "\n")))
  {
    var texts := Texts(columns, table).value;
    assert Map(sha, texts) == seq(|table|, i requires 0 <= i < |table| => sha(CanonicalRow(columns, table[i]).value));
    StringLeOrder();
    SortSorted(StringLe, Map(sha, texts));
    SortedUnique(StringLe, Sort(StringLe, Map(sha, texts)), hashes);
  }
}
