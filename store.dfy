/** The two handlers that write to the `Student` table (app.js, lines
    100-239): `POST /api/students` inserts a row from the request body and
    `PUT /api/students/:id` overwrites one. The table is an object whose
    rows and `AUTOINCREMENT` counter the handlers change in place; each
    handler is specified by a pure step function from the old table to the
    response and the new table, and the properties are lemmas about those
    functions. A storage failure is the parameter `fault`. */
module StudentStore {

  import opened Json
  import opened Text
  import opened StudentSchema
  import opened StudentQueries
  import opened Http

  /** The column list of the create handler's `INSERT` (app.js, line 111). */
  const CreateColumns: seq<string> := [
    "school", "sex", "age", "address", "famsize", "Pstatus", "Medu", "Fedu", "Mjob",
    "Fjob", "reason", "guardian", "traveltime", "studytime", "failures", "schoolsup",
    "famsup", "paid", "activities", "nursery", "higher", "internet", "romantic",
    "famrel", "freetime", "goout", "Dalc", "Walc", "health", "absences", "G1", "G2", "G3"
  ]

  /** The `?` placeholders in that statement's `VALUES` list: one short. */
  const CreatePlaceholders: nat := 32

  /** The body properties the create handler binds, in order (lines 113-145). */
  const CreateFields: seq<string> := [
    "school", "sex", "age", "address", "famsize", "Pstatus", "Medu", "Fedu", "Mjob",
    "Fjob", "reason", "guardian", "traveltime", "studytime", "failures", "schoolsup",
    "famsup", "paid", "activities", "nursery", "higher", "internet", "romantic",
    "famrel", "freetime", "goout", "Dalc", "Walc", "health", "absences", "G1", "G2", "G3"
  ]

  /** The `SET` columns of the update handler's statement (line 179). */
  const UpdateColumns: seq<string> := [
    "school", "sex", "age", "address", "famsize", "Pstatus", "Medu", "Fedu", "Mjob",
    "Fjob", "reason", "guardian", "traveltime", "studytime", "failures", "schoolsup",
    "famsup", "paid", "activities", "nursery", "higher", "internet", "romantic",
    "famrel", "freetime", "goout", "Dalc", "Walc", "health", "absences", "G1", "G2", "G3"
  ]

  /** The body properties the update handler binds, in order (lines 181-213);
      the path parameter follows them, for `WHERE id = ?`. */
  const UpdateFields: seq<string> := [
    "school", "sex", "age", "address", "famsize", "Pstatus", "Medu", "Fedu", "Mjob",
    "Fjob", "reason", "guardian", "traveltime", "studytime", "failures", "schoolsup",
    "famsup", "paid", "activities", "nursery", "higher", "internet", "romantic",
    "famrel", "freetime", "goout", "Dalc", "Walc", "health", "absences", "G1", "G2", "G3"
  ]

  /** The statement the create handler sends, as written. */
  const AppCreateInsert: Statement := Insert(CreateColumns, CreatePlaceholders)

  /** The same statement with one placeholder per column. */
  const CreateInsert: Statement := Insert(CreateColumns, |CreateColumns|)

  /** The statement the update handler sends. */
  const AppUpdate: Statement := Update(UpdateColumns, IdColumn)

  const CreateMissing: string := "Required information (school, sex, age) is missing for creating a new student"
  const UpdateMissing: string := "Required information (school, sex, age) is missing for updating the student"
  const NotFound: string := "Student not found"
  const CreatedMessage: string := "Student created successfully"
  const UpdatedMessage: string := "Student details updated successfully"
  const FullMessage: string := "SQLITE_FULL: database or disk is full"
  const MismatchMessage: string := "SQLITE_ERROR: 32 values for 33 columns"

  /** Both statements name every column, in declaration order, and bind the
      body property of the same name to each. */
  lemma StatementsFollowSchema()
    ensures CreateColumns == ColumnNames && CreateFields == ColumnNames
    ensures UpdateColumns == ColumnNames && UpdateFields == ColumnNames
  {
  }

  /** As written, the `INSERT` lists 33 columns but only 32 placeholders, so
      SQLite refuses to prepare it: nothing a client sends can be stored. */
  lemma AppInsertRejected(bound: nat)
    ensures Execute(AppCreateInsert, bound) == Rejected(MismatchMessage)
  {
    StatementsFollowSchema();
    AllColumnsKnown(CreateColumns);
    var st := AppCreateInsert;
    assert st.placeholders == 32 && |st.columns| == 33;
    assert Execute(st, bound) ==
      Rejected("SQLITE_ERROR: " + NatToString(32) + " values for " + NatToString(33) + " columns");
    CountsPrinted();
  }

  lemma CountsPrinted()
    ensures "SQLITE_ERROR: " + NatToString(32) + " values for " + NatToString(33) + " columns" == MismatchMessage
  {
    assert NatToString(3) == "3";
    assert NatToString(32) == "32";
    assert NatToString(33) == "33";
  }

  lemma AllColumnsKnown(cs: seq<string>)
    requires cs == ColumnNames
    ensures FirstUnknown(cs).None? && |cs| == 33
  {
    assert forall i :: 0 <= i < |cs| ==> IsColumn(cs[i]);
  }

  /** With 33 placeholders the statement prepares and takes the 33 values. */
  lemma CreateInsertPrepares()
    ensures Execute(CreateInsert, |CreateFields|) == Prepared
  {
    StatementsFollowSchema();
    AllColumnsKnown(CreateColumns);
  }

  /** The update statement prepares and takes its 33 values plus the id. */
  lemma AppUpdatePrepares()
    ensures Execute(AppUpdate, |UpdateFields| + 1) == Prepared
  {
    StatementsFollowSchema();
    AllColumnsKnown(UpdateColumns);
    assert IsColumn(IdColumn);
  }

  /** `if (!b.school || !b.sex || !b.age)` fails. */
  predicate HasRequired(body: Json)
  {
    Truthy(Get(body, "school")) && Truthy(Get(body, "sex")) && Truthy(Get(body, "age"))
  }

  /** The values bound for `[b.f0, b.f1, ...]`: a missing property is
      `undefined`, which is bound as `NULL`. */
  function Bindings(names: seq<string>, body: Json): seq<Json>
  {
    seq(|names|, i requires 0 <= i < |names| =>
      match Get(body, names[i])
      case Some(v) => v
      case None => JNull)
  }

  /** The entries of the request body; only an object has any. */
  function FieldsOf(body: Json): Fields
  {
    if body.JObj? then body.fields else []
  }

  /** `{ success: true, message, student: { id, ...body } }`. */
  function Confirmation(message: string, id: Json, body: Json): Json
  {
    JObj([("success", JBool(true)), ("message", JStr(message)),
      ("student", JObj(Echo(id, FieldsOf(body))))])
  }

  /** The table as the handlers see it: its rows, and the id `AUTOINCREMENT`
      hands out next (one more than the largest id ever used). */
  datatype State = State(rows: Table, nextId: nat)

  /** Rows are keyed by their own ids, every id is positive and below the
      counter, and the counter is at most one past `MaxRowId`, the largest
      rowid SQLite can assign. */
  ghost predicate Inv(s: State)
  {
    1 <= s.nextId <= MaxRowId + 1 &&
    Keyed(s.rows) &&
    forall k :: k in s.rows ==> 1 <= k < s.nextId
  }

  /** `POST /api/students` with statement `stmt`: the response and the
      table afterwards. A missing required field answers 400; a statement
      SQLite refuses, a storage failure or an exhausted id space answers 500;
      otherwise the row is stored under the next id and the answer echoes
      the body under that id. */
  function CreateStep(s: State, stmt: Statement, body: Json, fault: Option<string>): (out: (Response, State))
    requires stmt.Insert?
    ensures out.0.status == 200 <==>
      HasRequired(body) && Execute(stmt, |CreateFields|).Prepared? && fault.None? && s.nextId <= MaxRowId
    ensures out.0.status != 200 ==> out.1 == s
    ensures out.1.nextId >= s.nextId
    ensures !HasRequired(body) ==> out.0 == Error(400, CreateMissing)
    ensures HasRequired(body) && Execute(stmt, |CreateFields|).Rejected? ==>
      out.0 == Error(500, Execute(stmt, |CreateFields|).message)
    ensures HasRequired(body) && Execute(stmt, |CreateFields|).Prepared? && fault.Some? ==>
      out.0 == Error(500, fault.value)
    ensures HasRequired(body) && Execute(stmt, |CreateFields|).Prepared? && fault.None? && s.nextId > MaxRowId ==>
      out.0 == Error(500, FullMessage)
  {
    var values := Bindings(CreateFields, body);
    if !HasRequired(body) then (Error(400, CreateMissing), s)
    else if Execute(stmt, |values|).Rejected? then (Error(500, Execute(stmt, |values|).message), s)
    else if fault.Some? then (Error(500, fault.value), s)
    else if s.nextId > MaxRowId then (Error(500, FullMessage), s)
    else
      var id := s.nextId;
      (Ok(Confirmation(CreatedMessage, JNum(id as real), body)),
       State(s.rows[id := InsertRow(id, stmt.columns, values)], id + 1))
  }

  /** `PUT /api/students/:id`: a missing required field answers 400, a
      storage failure 500, an id that matches no row 404 with the table
      unchanged; otherwise every column of that row is overwritten and the
      answer echoes the body under the path's id (a string). */
  function UpdateStep(s: State, idParam: string, body: Json, fault: Option<string>): (out: (Response, State))
    ensures out.1.nextId == s.nextId
    ensures out.0.status == 200 <==>
      HasRequired(body) && fault.None? && Matches(s.rows, idParam)
    ensures out.0.status != 200 ==> out.1 == s
    ensures !HasRequired(body) ==> out.0 == Error(400, UpdateMissing)
    ensures HasRequired(body) && fault.Some? ==> out.0 == Error(500, fault.value)
    ensures HasRequired(body) && fault.None? && !Matches(s.rows, idParam) ==>
      out.0 == Error(404, NotFound)
  {
    var values := Bindings(UpdateFields, body) + [JStr(idParam)];
    var key := ParseId(idParam);
    if !HasRequired(body) then (Error(400, UpdateMissing), s)
    else if fault.Some? then (Error(500, fault.value), s)
    else if key.None? || key.value !in s.rows then (Error(404, NotFound), s)
    else
      var k: nat := key.value;
      (Ok(Confirmation(UpdatedMessage, JStr(idParam), body)),
       State(s.rows[k := UpdateRow(s.rows[k], UpdateColumns, values)], s.nextId))
  }

  /** A body whose `school`, `sex` or `age` is missing, `null`, `false`, `0`
      or `""` is refused with 400 by both handlers, before the table is
      touched. */
  lemma FalsyFieldRejected(s: State, stmt: Statement, idParam: string, body: Json, fault: Option<string>, k: string)
    requires stmt.Insert?
    requires k == "school" || k == "sex" || k == "age"
    requires Get(body, k) in {None, Some(JNull), Some(JBool(false)), Some(JNum(0.0)), Some(JStr(""))}
    ensures CreateStep(s, stmt, body, fault) == (Error(400, CreateMissing), s)
    ensures UpdateStep(s, idParam, body, fault) == (Error(400, UpdateMissing), s)
  {
    FalsyValues(Get(body, k));
  }

  /** Every create keeps the invariant. */
  lemma CreateKeepsInv(s: State, stmt: Statement, body: Json, fault: Option<string>)
    requires stmt.Insert? && Inv(s)
    ensures Inv(CreateStep(s, stmt, body, fault).1)
  {
    var out := CreateStep(s, stmt, body, fault);
    if out.0.status == 200 {
      var r := InsertRow(s.nextId, stmt.columns, Bindings(CreateFields, body));
      assert out.1 == State(s.rows[s.nextId := r], s.nextId + 1);
      StoreFresh(s, r);
    }
  }

  /** Storing a well-formed row under the counter and advancing it keeps the
      invariant. */
  lemma StoreFresh(s: State, r: Row)
    requires Inv(s) && s.nextId <= MaxRowId && r.id == s.nextId && WellFormed(r)
    ensures Inv(State(s.rows[s.nextId := r], s.nextId + 1))
  {
  }

  /** Overwriting a stored row with one of the same id keeps the invariant. */
  lemma StoreOver(s: State, k: nat, r: Row)
    requires Inv(s) && k in s.rows && r.id == k && WellFormed(r)
    ensures Inv(State(s.rows[k := r], s.nextId))
  {
  }

  /** Every update keeps the invariant. */
  lemma UpdateKeepsInv(s: State, idParam: string, body: Json, fault: Option<string>)
    requires Inv(s)
    ensures Inv(UpdateStep(s, idParam, body, fault).1)
  {
    var out := UpdateStep(s, idParam, body, fault);
    if out.0.status == 200 {
      var k: nat := ParseId(idParam).value;
      var r := UpdateRow(s.rows[k], UpdateColumns, Bindings(UpdateFields, body) + [JStr(idParam)]);
      assert out.1 == State(s.rows[k := r], s.nextId);
      StoreOver(s, k, r);
    }
  }

  /** The row a valid body describes: each column holds the body property of
      that name, `NULL` when absent. */
  function StudentRow(id: nat, body: Json): (r: Row)
    ensures r.id == id && WellFormed(r)
    ensures forall c :: 0 <= c < ColumnCount ==>
      Field(r, c) == (if Get(body, ColumnNames[c]).Some? then Get(body, ColumnNames[c]).value else JNull)
  {
    StatementsFollowSchema();
    Row(id, Bindings(CreateFields, body))
  }

  /** A create with the corrected statement, of a valid body and without a
      storage failure, stores exactly one new row under a fresh id that is
      larger than every id of the table, and changes nothing else. */
  lemma CreateStores(s: State, body: Json)
    requires Inv(s) && HasRequired(body) && s.nextId <= MaxRowId
    ensures CreateStep(s, CreateInsert, body, None).1 ==
      State(s.rows[s.nextId := StudentRow(s.nextId, body)], s.nextId + 1)
    ensures s.nextId !in s.rows && forall k :: k in s.rows ==> k < s.nextId
    ensures CreateStep(s, CreateInsert, body, None).0 ==
      Ok(Confirmation(CreatedMessage, JNum(s.nextId as real), body))
  {
    var values := Bindings(CreateFields, body);
    CreateInsertPrepares();
    CreateSucceeds(s, CreateInsert, body);
    StatementsFollowSchema();
    InsertAllColumns(s.nextId, values);
  }

  /** The successful path of `CreateStep`, for any statement that prepares. */
  lemma CreateSucceeds(s: State, stmt: Statement, body: Json)
    requires stmt.Insert? && HasRequired(body) && s.nextId <= MaxRowId
    requires Execute(stmt, |CreateFields|).Prepared?
    ensures CreateStep(s, stmt, body, None).0 == Ok(Confirmation(CreatedMessage, JNum(s.nextId as real), body))
    ensures CreateStep(s, stmt, body, None).1 ==
      State(s.rows[s.nextId := InsertRow(s.nextId, stmt.columns, Bindings(CreateFields, body))], s.nextId + 1)
  {
  }

  /** After a create, the new student is listed by `GET /api/students` and
      its grades are found under the returned id. */
  lemma CreateThenRead(s: State, body: Json)
    requires Inv(s) && HasRequired(body) && s.nextId <= MaxRowId
    ensures var after := CreateStep(s, CreateInsert, body, None).1;
      |after.rows| == |s.rows| + 1 &&
      StudentRow(s.nextId, body) in AllStudents(after.rows) &&
      PerformanceOf(after.rows, NatToString(s.nextId)) == Some(Grades(StudentRow(s.nextId, body)))
  {
    CreateStores(s, body);
    var after := CreateStep(s, CreateInsert, body, None).1;
    PerformanceById(after.rows, s.nextId, "");
  }

  /** The `student` object of the answer is `{ id, ...body }`: its `id` is the
      body's own `id` when it has one (the stored id is then not reported) and
      every other entry is the client's. */
  lemma ConfirmationEcho(message: string, id: Json, body: Json, k: string)
    requires body.JObj? && DistinctKeys(body.fields)
    ensures Get(Confirmation(message, id, body), "success") == Some(JBool(true))
    ensures Get(Confirmation(message, id, body), "message") == Some(JStr(message))
    ensures Get(Confirmation(message, id, body), "student").Some?
    ensures Get(Get(Confirmation(message, id, body), "student").value, k) ==
      if k == "id" then Some(IdOr(body.fields, id)) else Get(body, k)
  {
    var student := JObj(Echo(id, body.fields));
    var last: Fields := [("student", student)];
    var tail: Fields := [("message", JStr(message))] + last;
    var fs: Fields := [("success", JBool(true))] + tail;
    assert Confirmation(message, id, body).fields == fs;
    assert "message" != "success" by {
      assert "message"[0] != "success"[0];
    }
    assert "student" != "success" && "student" != "message" by {
      assert "student"[3] != "success"[3] && "student"[1] != "message"[1];
    }
    assert fs[1..] == tail && tail[1..] == last;
    assert Lookup(fs, "success") == Some(JBool(true));
    assert Lookup(fs, "message") == Lookup(tail, "message") == Some(JStr(message));
    assert Lookup(fs, "student") == Lookup(tail, "student") == Lookup(last, "student") == Some(student);
    EchoLookup(id, body.fields, k);
  }

  /** As written, the create handler never stores anything: a valid body is
      answered 500 with SQLite's count-mismatch message, an invalid one 400. */
  lemma AsWrittenCreateNeverStores(s: State, body: Json, fault: Option<string>)
    ensures CreateStep(s, AppCreateInsert, body, fault).1 == s
    ensures HasRequired(body) ==> CreateStep(s, AppCreateInsert, body, fault).0 == Error(500, MismatchMessage)
  {
    AppInsertRejected(|CreateFields|);
  }

  /** An update of a stored student, with a valid body and no storage
      failure, replaces all 33 columns of that row with the body's values and
      leaves every other row, the id and the counter as they were. */
  lemma UpdateReplaces(s: State, k: nat, body: Json)
    requires Inv(s) && k in s.rows && HasRequired(body)
    ensures UpdateStep(s, NatToString(k), body, None).1 == State(s.rows[k := StudentRow(k, body)], s.nextId)
    ensures UpdateStep(s, NatToString(k), body, None).0 ==
      Ok(Confirmation(UpdatedMessage, JStr(NatToString(k)), body))
  {
    ParseNatToString(k);
    StatementsFollowSchema();
    UpdateAllColumns(s.rows[k], Bindings(UpdateFields, body) + [JStr(NatToString(k))]);
    assert (Bindings(UpdateFields, body) + [JStr(NatToString(k))])[..ColumnCount] == Bindings(CreateFields, body);
  }

  /** Updating twice with the same body leaves the same table as updating once. */
  lemma UpdateIdempotent(s: State, idParam: string, body: Json)
    ensures var once := UpdateStep(s, idParam, body, None).1;
      UpdateStep(once, idParam, body, None).1 == once
  {
    var once := UpdateStep(s, idParam, body, None).1;
    if HasRequired(body) && Matches(s.rows, idParam) {
      var k: nat := ParseId(idParam).value;
      var values := Bindings(UpdateFields, body) + [JStr(idParam)];
      var r := UpdateRow(s.rows[k], UpdateColumns, values);
      UpdateSucceeds(s, idParam, body);
      assert once == State(s.rows[k := r], s.nextId);
      assert Matches(once.rows, idParam);
      UpdateSucceeds(once, idParam, body);
      SameUpdate(s.rows[k], values);
      RewriteSame(once.rows, k, r);
    }
  }

  lemma RewriteSame(m: Table, k: nat, v: Row)
    requires k in m && m[k] == v
    ensures m[k := v] == m
  {
  }

  /** The successful path of `UpdateStep`. */
  lemma UpdateSucceeds(s: State, idParam: string, body: Json)
    requires HasRequired(body) && Matches(s.rows, idParam)
    ensures var k: nat := ParseId(idParam).value;
      UpdateStep(s, idParam, body, None).1 ==
        State(s.rows[k := UpdateRow(s.rows[k], UpdateColumns, Bindings(UpdateFields, body) + [JStr(idParam)])], s.nextId)
    ensures UpdateStep(s, idParam, body, None).0 == Ok(Confirmation(UpdatedMessage, JStr(idParam), body))
  {
  }

  lemma SameUpdate(prev: Row, values: seq<Json>)
    ensures UpdateRow(UpdateRow(prev, UpdateColumns, values), UpdateColumns, values) == UpdateRow(prev, UpdateColumns, values)
  {
    var once := UpdateRow(prev, UpdateColumns, values);
    var twice := UpdateRow(once, UpdateColumns, values);
    forall c | 0 <= c < ColumnCount ensures twice.cols[c] == once.cols[c] {
    }
  }

  /** An object whose fields follow its step functions. */
  class StudentTable {

    var rows: Table
    var nextId: nat

    ghost predicate Valid()
      reads this
    {
      Inv(State(rows, nextId))
    }

    /** A freshly created table: no rows, and the first id will be 1. */
    constructor ()
      ensures Valid() && rows == map[] && nextId == 1
    {
      rows := map[];
      nextId := 1;
    }

    method Insert(stmt: Statement, body: Json, fault: Option<string>) returns (resp: Response)
      requires Valid() && stmt.Insert?
      modifies this
      ensures Valid()
      ensures (resp, State(rows, nextId)) == CreateStep(old(State(rows, nextId)), stmt, body, fault)
    {
      CreateKeepsInv(State(rows, nextId), stmt, body, fault);
      var values := Bindings(CreateFields, body);
      assert |values| == |CreateFields|;
      if !HasRequired(body) {
        resp := Error(400, CreateMissing);
        return;
      }
      var outcome := Execute(stmt, |values|);
      if outcome.Rejected? {
        resp := Error(500, outcome.message);
        return;
      }
      if fault.Some? {
        resp := Error(500, fault.value);
        return;
      }
      if nextId > MaxRowId {
        resp := Error(500, FullMessage);
        return;
      }
      CreateSucceeds(State(rows, nextId), stmt, body);
      var id := nextId;
      rows := rows[id := InsertRow(id, stmt.columns, values)];
      nextId := id + 1;
      resp := Ok(Confirmation(CreatedMessage, JNum(id as real), body));
    }

    /** `POST /api/students` as written (33 columns, 32 placeholders). */
    method CreateAsWritten(body: Json, fault: Option<string>) returns (resp: Response)
      requires Valid()
      modifies this
      ensures Valid()
      ensures (resp, State(rows, nextId)) == CreateStep(old(State(rows, nextId)), AppCreateInsert, body, fault)
    {
      resp := Insert(AppCreateInsert, body, fault);
    }

    /** `POST /api/students` with one placeholder per column. */
    method Create(body: Json, fault: Option<string>) returns (resp: Response)
      requires Valid()
      modifies this
      ensures Valid()
      ensures (resp, State(rows, nextId)) == CreateStep(old(State(rows, nextId)), CreateInsert, body, fault)
    {
      resp := Insert(CreateInsert, body, fault);
    }

    /** `PUT /api/students/:id`. */
    method Update(idParam: string, body: Json, fault: Option<string>) returns (resp: Response)
      requires Valid()
      modifies this
      ensures Valid()
      ensures (resp, State(rows, nextId)) == UpdateStep(old(State(rows, nextId)), idParam, body, fault)
    {
      UpdateKeepsInv(State(rows, nextId), idParam, body, fault);
      var values := Bindings(UpdateFields, body) + [JStr(idParam)];
      if !HasRequired(body) {
        resp := Error(400, UpdateMissing);
        return;
      }
      if fault.Some? {
        resp := Error(500, fault.value);
        return;
      }
      var key := ParseId(idParam);
      if key.None? || key.value !in rows {
        resp := Error(404, NotFound);
        return;
      }
      var k: nat := key.value;
      rows := rows[k := UpdateRow(rows[k], UpdateColumns, values)];
      resp := Ok(Confirmation(UpdatedMessage, JStr(idParam), body));
    }
  }
}
