/** The `Student` table declared in database.js, its rows, and what SQLite
    does when it prepares and runs the two kinds of statement the handlers
    send: an `INSERT` with a column list and `?` placeholders, and an
    `UPDATE ... SET c = ?, ... WHERE key = ?`. */
module StudentSchema {

  import opened Json
  import opened Text

  datatype ColumnType = TextColumn | NumericColumn

  datatype ColumnDecl = ColumnDecl(name: string, kind: ColumnType)

  /** The data columns of `CREATE TABLE Student`, in declaration order. */
  const Declared: seq<ColumnDecl> := [
    ColumnDecl("school", TextColumn),
    ColumnDecl("sex", TextColumn),
    ColumnDecl("age", NumericColumn),
    ColumnDecl("address", TextColumn),
    ColumnDecl("famsize", TextColumn),
    ColumnDecl("Pstatus", TextColumn),
    ColumnDecl("Medu", NumericColumn),
    ColumnDecl("Fedu", NumericColumn),
    ColumnDecl("Mjob", TextColumn),
    ColumnDecl("Fjob", TextColumn),
    ColumnDecl("reason", TextColumn),
    ColumnDecl("guardian", TextColumn),
    ColumnDecl("traveltime", NumericColumn),
    ColumnDecl("studytime", NumericColumn),
    ColumnDecl("failures", NumericColumn),
    ColumnDecl("schoolsup", TextColumn),
    ColumnDecl("famsup", TextColumn),
    ColumnDecl("paid", TextColumn),
    ColumnDecl("activities", TextColumn),
    ColumnDecl("nursery", TextColumn),
    ColumnDecl("higher", TextColumn),
    ColumnDecl("internet", TextColumn),
    ColumnDecl("romantic", TextColumn),
    ColumnDecl("famrel", NumericColumn),
    ColumnDecl("freetime", NumericColumn),
    ColumnDecl("goout", NumericColumn),
    ColumnDecl("Dalc", NumericColumn),
    ColumnDecl("Walc", NumericColumn),
    ColumnDecl("health", NumericColumn),
    ColumnDecl("absences", NumericColumn),
    ColumnDecl("G1", NumericColumn),
    ColumnDecl("G2", NumericColumn),
    ColumnDecl("G3", NumericColumn)
  ]

  /** The `INTEGER PRIMARY KEY AUTOINCREMENT` column. */
  const IdColumn: string := "id"

  /** The largest rowid SQLite can assign (a signed 64-bit integer). */
  const MaxRowId: int := 0x7fff_ffff_ffff_ffff

  const ColumnCount: nat := 33

  const ColumnNames: seq<string> := [
    "school",
    "sex",
    "age",
    "address",
    "famsize",
    "Pstatus",
    "Medu",
    "Fedu",
    "Mjob",
    "Fjob",
    "reason",
    "guardian",
    "traveltime",
    "studytime",
    "failures",
    "schoolsup",
    "famsup",
    "paid",
    "activities",
    "nursery",
    "higher",
    "internet",
    "romantic",
    "famrel",
    "freetime",
    "goout",
    "Dalc",
    "Walc",
    "health",
    "absences",
    "G1",
    "G2",
    "G3"
  ]

  const SchoolCol: nat := 0
  const SexCol: nat := 1
  const AgeCol: nat := 2
  const G1Col: nat := 30
  const G2Col: nat := 31
  const G3Col: nat := 32

  ghost predicate Distinct(xs: seq<string>)
  {
    forall i, j :: 0 <= i < j < |xs| ==> xs[i] != xs[j]
  }

  /** The table has exactly 33 distinct data columns besides `id`, and the
      column constants name the ones the handlers use. */
  lemma SchemaShape()
    ensures |Declared| == |ColumnNames| == ColumnCount
    ensures forall c :: 0 <= c < ColumnCount ==> Declared[c].name == ColumnNames[c]
    ensures Distinct(ColumnNames)
    ensures IdColumn !in ColumnNames
    ensures ColumnNames[SchoolCol] == "school" && ColumnNames[SexCol] == "sex"
    ensures ColumnNames[AgeCol] == "age"
    ensures ColumnNames[G1Col] == "G1" && ColumnNames[G2Col] == "G2" && ColumnNames[G3Col] == "G3"
  {
    DeclaredNames();
    NamesDistinct();
    IdNotDataColumn();
  }

  lemma DeclaredNames()
    ensures |Declared| == |ColumnNames| == ColumnCount
    ensures forall c :: 0 <= c < ColumnCount ==> Declared[c].name == ColumnNames[c]
  {
  }

  lemma NamesDistinct()
    ensures Distinct(ColumnNames)
  {
  }

  lemma IdNotDataColumn()
    ensures IdColumn !in ColumnNames
  {
  }

  /** A stored row: its `id` and the 33 data columns in declaration order;
      `JNull` is SQL `NULL`. */
  datatype Row = Row(id: int, cols: seq<Json>)

  predicate WellFormed(r: Row)
  {
    |r.cols| == ColumnCount
  }

  /** The table's contents: each row under its `id`. Ids are assigned by
      `AUTOINCREMENT` and so are positive. */
  type Table = map<nat, Row>

  /** Each row is stored under its own `id` and has all 33 columns. */
  ghost predicate Keyed(rows: Table)
  {
    forall k :: k in rows ==> rows[k].id == k && WellFormed(rows[k])
  }

  /** Column `c` of a row (`NULL` past the end). */
  function Field(r: Row, c: nat): Json
  {
    if c < |r.cols| then r.cols[c] else JNull
  }

  /** A row as `SELECT *` hands it to JavaScript: `id` first, then every data
      column under its declared name. */
  function RowObject(r: Row): Json
  {
    JObj([("id", JNum(r.id as real))]
      + seq(ColumnCount, c requires 0 <= c < ColumnCount => (ColumnNames[c], Field(r, c))))
  }

  /** A row as `SELECT G1, G2, G3` hands it to JavaScript. */
  function Grades(r: Row): Json
  {
    JObj([("G1", Field(r, G1Col)), ("G2", Field(r, G2Col)), ("G3", Field(r, G3Col))])
  }

  /** On a row object, `row.id` is the row's id and `row.<name>` is the
      column of that name, for each of the 33 columns. */
  lemma RowObjectFields(r: Row, c: nat)
    requires c < ColumnCount
    ensures Get(RowObject(r), IdColumn) == Some(JNum(r.id as real))
    ensures Get(RowObject(r), ColumnNames[c]) == Some(Field(r, c))
  {
    NamesDistinct();
    IdNotDataColumn();
    var tail := seq(ColumnCount, c requires 0 <= c < ColumnCount => (ColumnNames[c], Field(r, c)));
    assert RowObject(r).fields == [(IdColumn, JNum(r.id as real))] + tail;
    HeadedLookup((IdColumn, JNum(r.id as real)), tail, ColumnNames, c);
  }

  /** Lookups in an entry list whose keys are a distinct name list behind a
      head entry of another name. */
  lemma HeadedLookup(head: (string, Json), tail: Fields, names: seq<string>, i: nat)
    requires |tail| == |names| && forall j :: 0 <= j < |tail| ==> tail[j].0 == names[j]
    requires Distinct(names) && head.0 !in names && i < |tail|
    ensures Lookup([head] + tail, head.0) == Some(head.1)
    ensures Lookup([head] + tail, names[i]) == Some(tail[i].1)
  {
    var fs := [head] + tail;
    assert fs[i + 1] == tail[i];
    assert DistinctKeys(fs) by {
      forall a, b | 0 <= a < b < |fs| ensures fs[a].0 != fs[b].0 {
        assert fs[b] == tail[b - 1];
        if a > 0 {
          assert fs[a] == tail[a - 1];
        } else {
          assert names[b - 1] in names;
        }
      }
    }
  }

  /** A grade object has exactly the keys `G1`, `G2`, `G3`, holding the
      row's grade columns. */
  lemma GradesFields(r: Row)
    ensures Keys(Grades(r).fields) == ["G1", "G2", "G3"]
    ensures Get(Grades(r), "G1") == Some(Field(r, G1Col))
    ensures Get(Grades(r), "G2") == Some(Field(r, G2Col))
    ensures Get(Grades(r), "G3") == Some(Field(r, G3Col))
  {
    var fs := Grades(r).fields;
    assert "G1" != "G2" && "G1" != "G3" && "G2" != "G3" by {
      assert "G1"[1] != "G2"[1] && "G1"[1] != "G3"[1] && "G2"[1] != "G3"[1];
    }
    assert DistinctKeys(fs);
    assert Keys(fs) == ["G1", "G2", "G3"];
  }

  /** A statement with positional `?` placeholders, as data: an `INSERT` names
      its columns and counts the placeholders of its `VALUES` list; an
      `UPDATE` assigns one placeholder per `SET` column and one more to the
      `WHERE` key. */
  datatype Statement =
    | Insert(columns: seq<string>, placeholders: nat)
    | Update(assignments: seq<string>, key: string)

  datatype Outcome = Prepared | Rejected(message: string)

  predicate IsColumn(c: string)
  {
    c == IdColumn || c in ColumnNames
  }

  /** The first name in `cs` that is not a column of the table, if any. */
  function FirstUnknown(cs: seq<string>): (r: Option<string>)
    ensures r.None? <==> forall i :: 0 <= i < |cs| ==> IsColumn(cs[i])
    ensures r.Some? ==> r.value in cs && !IsColumn(r.value)
    ensures r.Some? ==> exists j :: 0 <= j < |cs| && cs[j] == r.value && forall i :: 0 <= i < j ==> IsColumn(cs[i])
  {
    if cs == [] then None
    else if !IsColumn(cs[0]) then Some(cs[0])
    else
      var r := FirstUnknown(cs[1..]);
      FirstUnknownStep(cs, r);
      r
  }

  lemma FirstUnknownStep(cs: seq<string>, r: Option<string>)
    requires cs != [] && IsColumn(cs[0])
    requires r.Some? ==>
      exists j :: 0 <= j < |cs[1..]| && cs[1..][j] == r.value && (forall i :: 0 <= i < j ==> IsColumn(cs[1..][i]))
    ensures r.Some? ==> exists j :: 0 <= j < |cs| && cs[j] == r.value && forall i :: 0 <= i < j ==> IsColumn(cs[i])
  {
    if r.Some? {
      var j :| 0 <= j < |cs[1..]| && cs[1..][j] == r.value && forall i :: 0 <= i < j ==> IsColumn(cs[1..][i]);
      assert cs[j + 1] == r.value;
      forall i | 0 <= i < j + 1 ensures IsColumn(cs[i]) {
        if i > 0 {
          assert cs[i] == cs[1..][i - 1];
        }
      }
    }
  }

  const RangeMessage: string := "SQLITE_RANGE: column index out of range"

  /** `INSERT INTO Student () VALUES ()` and `UPDATE Student SET WHERE ...`
      do not parse. */
  const InsertSyntaxMessage: string := "SQLITE_ERROR: near \")\": syntax error"
  const UpdateSyntaxMessage: string := "SQLITE_ERROR: near \"WHERE\": syntax error"

  /** What happens when the statement is prepared and `bound` positional
      values are bound to it: an empty column list is a syntax error; an
      unknown column or an `INSERT` whose value count differs from its column
      count is refused when prepared; binding more values than there are
      placeholders is refused when bound. */
  function Execute(st: Statement, bound: nat): (r: Outcome)
    ensures st.Insert? ==> (r.Prepared? <==>
      |st.columns| >= 1 &&
      (forall i :: 0 <= i < |st.columns| ==> IsColumn(st.columns[i])) &&
      st.placeholders == |st.columns| && bound <= st.placeholders)
    ensures st.Update? ==> (r.Prepared? <==>
      |st.assignments| >= 1 &&
      (forall i :: 0 <= i < |st.assignments| ==> IsColumn(st.assignments[i])) &&
      IsColumn(st.key) && bound <= |st.assignments| + 1)
  {
    match st
    case Insert(cs, p) =>
      if cs == [] then Rejected(InsertSyntaxMessage)
      else if FirstUnknown(cs).Some? then
        Rejected("SQLITE_ERROR: table Student has no column named " + FirstUnknown(cs).value)
      else if p != |cs| then
        Rejected("SQLITE_ERROR: " + NatToString(p) + " values for " + NatToString(|cs|) + " columns")
      else if bound > p then Rejected(RangeMessage)
      else Prepared
    case Update(a, k) =>
      if a == [] then Rejected(UpdateSyntaxMessage)
      else if FirstUnknown(a).Some? then
        Rejected("SQLITE_ERROR: no such column: " + FirstUnknown(a).value)
      else if !IsColumn(k) then
        Rejected("SQLITE_ERROR: no such column: " + k)
      else if bound > |a| + 1 then Rejected(RangeMessage)
      else Prepared
  }

  /** The first position of `x` in `xs`, or `|xs|` when it does not occur. */
  function IndexOf<T(==)>(xs: seq<T>, x: T): (j: nat)
    ensures j <= |xs|
    ensures j < |xs| <==> x in xs
    ensures j < |xs| ==> xs[j] == x
    ensures forall i :: 0 <= i < j ==> xs[i] != x
  {
    if xs == [] then 0
    else if xs[0] == x then 0
    else
      assert xs == [xs[0]] + xs[1..];
      1 + IndexOf(xs[1..], x)
  }

  lemma IndexOfDistinct(xs: seq<string>, i: nat)
    requires Distinct(xs) && i < |xs|
    ensures IndexOf(xs, xs[i]) == i
  {
  }

  /** The value an `INSERT` with column list `cs` and bound values `vs` stores
      in column `name`: the value at that column's position, `NULL` when the
      column is not listed or nothing was bound there. */
  function ValueFor(name: string, cs: seq<string>, vs: seq<Json>): Json
  {
    var j := IndexOf(cs, name);
    if j < |cs| && j < |vs| then vs[j] else JNull
  }

  /** The row an `INSERT (cs) VALUES (?, ...)` stores under a fresh `id`. */
  function InsertRow(id: int, cs: seq<string>, vs: seq<Json>): Row
  {
    Row(id, seq(ColumnCount, c requires 0 <= c < ColumnCount => ValueFor(ColumnNames[c], cs, vs)))
  }

  /** The row `UPDATE SET a[0] = ?, ... ` leaves: each assigned column takes
      its bound value, every other column and `id` keep theirs. */
  function UpdateRow(prev: Row, a: seq<string>, vs: seq<Json>): Row
  {
    Row(prev.id, seq(ColumnCount, c requires 0 <= c < ColumnCount =>
      if ColumnNames[c] in a then ValueFor(ColumnNames[c], a, vs) else Field(prev, c)))
  }

  /** A column the `INSERT` does not list is `NULL`; a column listed at
      position `j` of a repeat-free list holds the value bound at `j`, or
      `NULL` when fewer values were bound. */
  lemma InsertRowField(id: int, cs: seq<string>, vs: seq<Json>, c: nat, j: nat)
    requires c < ColumnCount
    ensures ColumnNames[c] !in cs ==> Field(InsertRow(id, cs, vs), c) == JNull
    ensures Distinct(cs) && j < |cs| && cs[j] == ColumnNames[c] ==>
      Field(InsertRow(id, cs, vs), c) == if j < |vs| then vs[j] else JNull
  {
    if Distinct(cs) && j < |cs| && cs[j] == ColumnNames[c] {
      IndexOfDistinct(cs, j);
    }
  }

  /** In a list of distinct names, name `c` is bound to value `c`. */
  lemma ValueForDistinct(names: seq<string>, vs: seq<Json>, c: nat)
    requires Distinct(names) && c < |names| <= |vs|
    ensures names[c] in names && ValueFor(names[c], names, vs) == vs[c]
  {
    IndexOfDistinct(names, c);
  }

  /** An `INSERT` listing every column in declaration order stores the bound
      values as they come. */
  lemma InsertAllColumns(id: int, vs: seq<Json>)
    requires |vs| == ColumnCount
    ensures InsertRow(id, ColumnNames, vs) == Row(id, vs)
  {
    NamesDistinct();
    var r := InsertRow(id, ColumnNames, vs);
    forall c | 0 <= c < ColumnCount ensures r.cols[c] == vs[c] {
      ValueForDistinct(ColumnNames, vs, c);
    }
    assert r.cols == vs;
  }

  /** An `UPDATE` assigning every column in declaration order replaces the
      whole row except its `id` (a full-row replace, not a patch). */
  lemma UpdateAllColumns(prev: Row, vs: seq<Json>)
    requires |vs| >= ColumnCount
    ensures UpdateRow(prev, ColumnNames, vs) == Row(prev.id, vs[..ColumnCount])
  {
    NamesDistinct();
    var r := UpdateRow(prev, ColumnNames, vs);
    forall c | 0 <= c < ColumnCount ensures r.cols[c] == vs[c] {
      ValueForDistinct(ColumnNames, vs, c);
    }
    assert |r.cols| == ColumnCount;
    assert r.cols == vs[..ColumnCount];
  }
}
