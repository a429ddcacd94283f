/** The header-driven `INSERT` that the one-time import builds for each CSV
    record (database.js, lines 62-69): the column list, one named
    placeholder `:key` per header, and the named-parameter map that binds
    them. */
module CsvImport {

  import opened Json
  import opened Text
  import opened StudentSchema

  /** A parsed CSV record: its (header, cell) entries in header order, as
      `Object.entries(row)` lists them. */
  type CsvRow = seq<(string, string)>

  /** `Object.keys(row).join(', ')`. */
  function ColumnList(row: CsvRow): string
  {
    Join(Keys(row))
  }

  /** `':' + key`. */
  function Named(key: string): string
  {
    ":" + key
  }

  /** `Object.keys(row).map(column => ':' + column)`. */
  function Placeholders(row: CsvRow): (ps: seq<string>)
    ensures |ps| == |row|
    ensures forall i :: 0 <= i < |row| ==> ps[i] == Named(row[i].0)
  {
    if row == [] then [] else [Named(row[0].0)] + Placeholders(row[1..])
  }

  /** `Object.fromEntries(Object.entries(row).map(([k, v]) => [':' + k, v]))`:
      entries are defined left to right, so a later entry with the same key
      would win. */
  function Params(row: CsvRow): (m: map<string, string>)
    ensures m.Keys == NameSet(row)
    ensures forall i :: 0 <= i < |row| && (forall j :: i < j < |row| ==> row[j].0 != row[i].0) ==>
      m[Named(row[i].0)] == row[i].1
    decreases |row|
  {
    if row == [] then map[]
    else
      var init, last := row[..|row| - 1], row[|row| - 1];
      var m := Params(init);
      NamesStep(row);
      NamedOneToOne();
      assert forall i :: 0 <= i < |init| ==> init[i] == row[i];
      m[Named(last.0) := last.1]
  }

  /** The placeholder names of a record. */
  ghost function NameSet(row: CsvRow): set<string>
  {
    set i | 0 <= i < |row| :: Named(row[i].0)
  }

  lemma NamesStep(row: CsvRow)
    requires row != []
    ensures NameSet(row) == NameSet(row[..|row| - 1]) + {Named(row[|row| - 1].0)}
  {
    var init := row[..|row| - 1];
    var s := NameSet(init);
    var last := Named(row[|row| - 1].0);
    forall p | p in s + {last} ensures p in (set i | 0 <= i < |row| :: Named(row[i].0)) {
      if p in s {
        var i :| 0 <= i < |init| && p == Named(init[i].0);
        assert init[i] == row[i];
      } else {
        assert p == Named(row[|row| - 1].0);
      }
    }
    forall p | p in (set i | 0 <= i < |row| :: Named(row[i].0)) ensures p in s + {last} {
      var i :| 0 <= i < |row| && p == Named(row[i].0);
      if i < |row| - 1 {
        assert init[i] == row[i];
      }
    }
  }

  /** Distinct keys have distinct placeholders. */
  lemma NamedInjective(a: string, b: string)
    requires Named(a) == Named(b)
    ensures a == b
  {
    assert a == Named(a)[1..] && b == Named(b)[1..];
  }

  lemma NamedOneToOne()
    ensures forall a, b :: Named(a) == Named(b) ==> a == b
  {
    forall a, b | Named(a) == Named(b) ensures a == b {
      NamedInjective(a, b);
    }
  }

  /** The column list splits back into the headers, in order, so the
      statement names exactly one column per header (any non-empty record
      whose headers do not contain the separator). */
  lemma ColumnListKeys(row: CsvRow)
    requires |row| >= 1
    requires forall i :: 0 <= i < |row| ==> !HasSep(row[i].0)
    ensures Split(ColumnList(row)) == Keys(row)
    ensures |Split(ColumnList(row))| == |Placeholders(row)|
  {
    SplitJoin(Keys(row));
  }

  /** Placeholder `i` names column `i`: same count, same order. */
  lemma PlaceholdersAligned(row: CsvRow)
    ensures |Placeholders(row)| == |Keys(row)|
    ensures forall i :: 0 <= i < |row| ==> Placeholders(row)[i] == Named(Keys(row)[i])
  {
  }

  /** Every placeholder is a key of the parameter map and every key of the map
      is a placeholder, so each named parameter is bound and nothing else is. */
  lemma EveryPlaceholderBound(row: CsvRow)
    ensures (set p | p in Placeholders(row)) == Params(row).Keys
  {
    var ps := Placeholders(row);
    forall p | p in ps ensures p in Params(row).Keys {
      var i :| 0 <= i < |ps| && ps[i] == p;
      assert p == Named(row[i].0);
    }
  }

  /** For a record with distinct headers the map has one entry per header,
      and the entry for `:k` is the cell under `k`. */
  lemma ParamsPerHeader(row: CsvRow)
    requires DistinctKeys(row)
    ensures |Params(row)| == |row|
    ensures forall i :: 0 <= i < |row| ==> Params(row)[Named(row[i].0)] == row[i].1
  {
    var ks := Params(row).Keys;
    assert |ks| == |row| by {
      ParamKeysCount(row);
    }
  }

  lemma {:induction false} ParamKeysCount(row: CsvRow)
    requires DistinctKeys(row)
    ensures |NameSet(row)| == |row|
    decreases |row|
  {
    if row != [] {
      var init := row[..|row| - 1];
      assert DistinctKeys(init) by {
        forall i, j | 0 <= i < j < |init| ensures init[i].0 != init[j].0 {
          assert init[i] == row[i] && init[j] == row[j];
        }
      }
      ParamKeysCount(init);
      var s := NameSet(init);
      var last := Named(row[|row| - 1].0);
      NamesStep(row);
      assert last !in s by {
        forall i | 0 <= i < |init| ensures Named(init[i].0) != last {
          assert init[i] == row[i];
          if Named(init[i].0) == last {
            NamedInjective(init[i].0, row[|row| - 1].0);
          }
        }
      }
    }
  }

  /** The statement the import sends for a record, as SQLite reads it: one
      column per header and one placeholder per header. */
  function ImportInsert(row: CsvRow): Statement
  {
    Insert(Keys(row), |Placeholders(row)|)
  }

  /** Unlike the create handler's statement, the import's statement never has
      a count mismatch: it is refused only when a header is not a column, or
      when the record has no header at all (`INSERT INTO Student () ...`). */
  lemma ImportInsertPrepares(row: CsvRow)
    ensures Execute(ImportInsert(row), 0).Prepared? <==>
      |row| >= 1 && forall i :: 0 <= i < |row| ==> IsColumn(row[i].0)
  {
    assert forall i :: 0 <= i < |row| ==> Keys(row)[i] == row[i].0;
  }

  /** The value each placeholder position receives from the parameter map:
      `:k` binds the cell under `k`. */
  function ImportBindings(row: CsvRow): seq<Json>
  {
    var ps := Placeholders(row);
    seq(|row|, i requires 0 <= i < |row| =>
      if ps[i] in Params(row) then JStr(Params(row)[ps[i]]) else JNull)
  }

  /** For a record with distinct headers, position `j` binds the cell of
      entry `j`, as text. */
  lemma ImportBindingsCells(row: CsvRow)
    requires DistinctKeys(row)
    ensures |ImportBindings(row)| == |row|
    ensures forall j :: 0 <= j < |row| ==> ImportBindings(row)[j] == JStr(row[j].1)
  {
    ParamsPerHeader(row);
    var ps := Placeholders(row);
    forall j | 0 <= j < |row| ensures ImportBindings(row)[j] == JStr(row[j].1) {
      assert ps[j] == Named(row[j].0);
    }
  }

  lemma KeysDistinct(row: CsvRow)
    requires DistinctKeys(row)
    ensures Distinct(Keys(row))
  {
    var hs := Keys(row);
    forall a, b | 0 <= a < b < |hs| ensures hs[a] != hs[b] {
      assert hs[a] == row[a].0 && hs[b] == row[b].0;
    }
  }

  /** The row stored for a record: every data column named by a header takes
      that header's cell as text, every other column is `NULL`, whatever the
      order of the headers. */
  function ImportedRow(id: int, row: CsvRow): (r: Row)
    ensures WellFormed(r) && r.id == id
  {
    InsertRow(id, Keys(row), ImportBindings(row))
  }

  lemma ImportedColumns(id: int, row: CsvRow, c: nat)
    requires DistinctKeys(row) && c < ColumnCount
    ensures ColumnNames[c] in Keys(row) ==>
      Field(ImportedRow(id, row), c) == JStr(row[IndexOf(Keys(row), ColumnNames[c])].1)
    ensures ColumnNames[c] !in Keys(row) ==> Field(ImportedRow(id, row), c) == JNull
  {
    ImportBindingsCells(row);
    KeysDistinct(row);
    var j := IndexOf(Keys(row), ColumnNames[c]);
    InsertRowField(id, Keys(row), ImportBindings(row), c, j);
  }
}
