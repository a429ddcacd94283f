/** The six read endpoints of app.js (lines 22-97): each runs one `SELECT`
    on the `Student` table and answers 200 with the rows it found, or 500
    with the engine's message when the query fails. A failure of the storage
    layer is the parameter `fault`. Rows come back in ascending `id` order,
    the order of a table scan. */
module StudentQueries {

  import opened Json
  import opened Text
  import opened StudentSchema
  import opened Http

  /** `m` is the smallest member of `s`. */
  predicate IsLeast(s: set<nat>, m: nat)
  {
    m in s && forall x :: x in s ==> m <= x
  }

  lemma {:induction false} MinExists(s: set<nat>)
    requires s != {}
    ensures exists m :: IsLeast(s, m)
    decreases |s|
  {
    var y :| y in s;
    var rest := s - {y};
    if rest == {} {
      assert IsLeast(s, y) by {
        forall x | x in s ensures y <= x {
          assert x !in rest;
        }
      }
    } else {
      MinExists(rest);
      var m :| IsLeast(rest, m);
      var least := if y < m then y else m;
      forall x | x in s ensures least <= x {
        if x != y {
          assert x in rest;
        }
      }
      assert IsLeast(s, least);
    }
  }

  function MinOf(s: set<nat>): (m: nat)
    requires s != {}
    ensures m in s && forall x :: x in s ==> m <= x
  {
    MinExists(s);
    var m :| IsLeast(s, m);
    m
  }

  predicate Increasing(ids: seq<nat>)
  {
    forall i, j :: 0 <= i < j < |ids| ==> ids[i] < ids[j]
  }

  /** The members of `s` in ascending order (the ids of a table, in the
      order a scan visits them). */
  function Ascending(s: set<nat>): (ids: seq<nat>)
    ensures |ids| == |s|
    ensures forall k :: k in ids <==> k in s
    ensures Increasing(ids)
    decreases |s|
  {
    if s == {} then []
    else
      var m := MinOf(s);
      [m] + Ascending(s - {m})
  }

  /** Rows in strictly ascending `id` order; in particular no row twice. */
  predicate IdsIncreasing(rs: seq<Row>)
  {
    forall i, j :: 0 <= i < j < |rs| ==> rs[i].id < rs[j].id
  }

  /** `r` is one of the table's rows. */
  ghost predicate Stored(rows: Table, r: Row)
  {
    exists k :: k in rows && rows[k] == r
  }

  /** `SELECT * FROM Student`: every stored row once, in ascending `id` order. */
  function AllStudents(rows: Table): (rs: seq<Row>)
    ensures |rs| == |rows|
    ensures forall k :: k in rows ==> rows[k] in rs
    ensures forall i :: 0 <= i < |rs| ==> Stored(rows, rs[i])
    ensures Keyed(rows) ==> IdsIncreasing(rs)
  {
    var ids := Ascending(rows.Keys);
    var rs := seq(|ids|, i requires 0 <= i < |ids| => rows[ids[i]]);
    ScanFacts(rows, ids, rs);
    rs
  }

  lemma ScanFacts(rows: Table, ids: seq<nat>, rs: seq<Row>)
    requires |ids| == |rows.Keys| && Increasing(ids)
    requires forall k :: k in ids <==> k in rows
    requires |rs| == |ids| && forall i :: 0 <= i < |ids| ==> ids[i] in rows && rs[i] == rows[ids[i]]
    ensures |rs| == |rows|
    ensures forall k :: k in rows ==> rows[k] in rs
    ensures forall i :: 0 <= i < |rs| ==> Stored(rows, rs[i])
    ensures Keyed(rows) ==> IdsIncreasing(rs)
  {
    forall k | k in rows ensures rows[k] in rs {
      var i :| 0 <= i < |ids| && ids[i] == k;
      assert rs[i] == rows[k];
    }
    forall i | 0 <= i < |rs| ensures Stored(rows, rs[i]) {
      assert ids[i] in rows && rows[ids[i]] == rs[i];
    }
  }

  /** `... WHERE <column c> = v`: the rows whose column `c` equals `v`, in the
      order they came. */
  function Where(rs: seq<Row>, c: nat, v: Json): (out: seq<Row>)
    ensures |out| <= |rs|
    ensures forall r :: r in out <==> r in rs && Field(r, c) == v
    ensures IdsIncreasing(rs) ==> IdsIncreasing(out)
  {
    if rs == [] then []
    else
      var rest := Where(rs[1..], c, v);
      WhereStep(rs, rest, c, v);
      if Field(rs[0], c) == v then [rs[0]] + rest else rest
  }

  lemma WhereStep(rs: seq<Row>, rest: seq<Row>, c: nat, v: Json)
    requires rs != []
    requires forall r :: r in rest <==> r in rs[1..] && Field(r, c) == v
    requires IdsIncreasing(rs[1..]) ==> IdsIncreasing(rest)
    ensures forall r :: r in rest ==> r in rs && Field(r, c) == v
    ensures forall r :: r in rs && Field(r, c) == v && r != rs[0] ==> r in rest
    ensures IdsIncreasing(rs) ==> IdsIncreasing(rest) && forall r :: r in rest ==> rs[0].id < r.id
  {
    assert rs == [rs[0]] + rs[1..];
    if IdsIncreasing(rs) {
      assert IdsIncreasing(rs[1..]) by {
        forall i, j | 0 <= i < j < |rs[1..]| ensures rs[1..][i].id < rs[1..][j].id {
          assert rs[1..][i] == rs[i + 1] && rs[1..][j] == rs[j + 1];
        }
      }
      forall r | r in rest ensures rs[0].id < r.id {
        var t :| 0 <= t < |rs[1..]| && rs[1..][t] == r;
        assert rs[t + 1] == r;
      }
    }
  }

  /** The stored rows whose column `c` is `v`. */
  function Selection(rows: Table, c: nat, v: Json): seq<Row>
  {
    Where(AllStudents(rows), c, v)
  }

  /** A selection holds exactly the stored rows with that value, each once,
      in ascending `id` order. */
  lemma SelectionExactly(rows: Table, c: nat, v: Json)
    requires Keyed(rows)
    ensures forall k :: k in rows ==> (rows[k] in Selection(rows, c, v) <==> Field(rows[k], c) == v)
    ensures forall r :: r in Selection(rows, c, v) ==> Stored(rows, r) && Field(r, c) == v
    ensures IdsIncreasing(Selection(rows, c, v))
  {
  }

  /** Column `c` of each row, in order (`rows.map(row => row.school)`). */
  function Column(rs: seq<Row>, c: nat): seq<Json>
  {
    seq(|rs|, i requires 0 <= i < |rs| => Field(rs[i], c))
  }

  lemma {:induction false} IndexOfAppend(p: seq<Json>, q: seq<Json>, y: Json)
    ensures y in p ==> IndexOf(p + q, y) == IndexOf(p, y)
    ensures y !in p ==> IndexOf(p + q, y) == |p| + IndexOf(q, y)
  {
    if p == [] {
      assert p + q == q;
    } else {
      var pq := p + q;
      assert pq[0] == p[0] && pq[1..] == p[1..] + q;
      IndexOfAppend(p[1..], q, y);
      if p[0] != y {
        assert y in p <==> y in p[1..];
        assert IndexOf(pq, y) == 1 + IndexOf(pq[1..], y);
      }
    }
  }

  /** `DISTINCT`: each value once, in order of first appearance. */
  function Dedupe(xs: seq<Json>): (ys: seq<Json>)
    ensures forall x :: x in ys <==> x in xs
    ensures forall i, j :: 0 <= i < j < |ys| ==> ys[i] != ys[j]
    ensures forall i, j :: 0 <= i < j < |ys| ==> IndexOf(xs, ys[i]) < IndexOf(xs, ys[j])
    decreases |xs|
  {
    if xs == [] then []
    else
      var init, last := xs[..|xs| - 1], xs[|xs| - 1];
      var d := Dedupe(init);
      assert xs == init + [last];
      DedupeStep(init, last, d);
      if last in d then d else d + [last]
  }

  lemma DedupeStep(init: seq<Json>, last: Json, d: seq<Json>)
    requires forall x :: x in d <==> x in init
    requires forall i, j :: 0 <= i < j < |d| ==> IndexOf(init, d[i]) < IndexOf(init, d[j])
    ensures forall i, j :: 0 <= i < j < |d| ==> IndexOf(init + [last], d[i]) < IndexOf(init + [last], d[j])
    ensures last !in d ==> forall i :: 0 <= i < |d| ==> IndexOf(init + [last], d[i]) < IndexOf(init + [last], last)
  {
    forall y | y in init ensures IndexOf(init + [last], y) == IndexOf(init, y) {
      IndexOfAppend(init, [last], y);
    }
    if last !in d {
      IndexOfAppend(init, [last], last);
    }
  }

  /** `SELECT DISTINCT school FROM Student`, mapped to the school values. */
  function SchoolList(rows: Table): (vs: seq<Json>)
    ensures forall v :: v in vs <==> exists k :: k in rows && Field(rows[k], SchoolCol) == v
    ensures forall i, j :: 0 <= i < j < |vs| ==> vs[i] != vs[j]
  {
    var col := Column(AllStudents(rows), SchoolCol);
    ColumnValues(rows, SchoolCol);
    Dedupe(col)
  }

  /** A value occurs in a column of the scan exactly when some stored row has it. */
  lemma ColumnValues(rows: Table, c: nat)
    ensures forall v :: v in Column(AllStudents(rows), c) <==> exists k :: k in rows && Field(rows[k], c) == v
  {
    ColumnOfScan(rows, AllStudents(rows), c);
  }

  lemma ColumnOfScan(rows: Table, all: seq<Row>, c: nat)
    requires forall k :: k in rows ==> rows[k] in all
    requires forall i :: 0 <= i < |all| ==> Stored(rows, all[i])
    ensures forall v :: v in Column(all, c) <==> exists k :: k in rows && Field(rows[k], c) == v
  {
    var col := Column(all, c);
    assert |col| == |all|;
    forall v | v in col ensures exists k :: k in rows && Field(rows[k], c) == v {
      var i :| 0 <= i < |col| && col[i] == v;
      assert col[i] == Field(all[i], c);
      assert Stored(rows, all[i]);
      var k :| k in rows && rows[k] == all[i];
      assert Field(rows[k], c) == v;
    }
    forall k | k in rows ensures Field(rows[k], c) in col {
      var i :| 0 <= i < |all| && all[i] == rows[k];
      assert col[i] == Field(rows[k], c);
    }
  }

  /** Each row as the JSON object `SELECT *` yields. */
  function RowObjects(rs: seq<Row>): seq<Json>
  {
    seq(|rs|, i requires 0 <= i < |rs| => RowObject(rs[i]))
  }

  /** Each row's grades, as `SELECT G1, G2, G3` yields them. */
  function GradeList(rs: seq<Row>): seq<Json>
  {
    seq(|rs|, i requires 0 <= i < |rs| => Grades(rs[i]))
  }

  /** `WHERE id = ?` with a path parameter finds a row: the parameter is a
      decimal integer that is a stored key. */
  predicate Matches(rows: Table, idParam: string)
  {
    ParseId(idParam).Some? && ParseId(idParam).value in rows
  }

  /** `SELECT G1, G2, G3 FROM Student WHERE id = ?` read with `db.get`: the
      parameter names a row only when it is a decimal integer that is a
      stored key. */
  function PerformanceOf(rows: Table, studentId: string): (g: Option<Json>)
    ensures g.Some? <==> Matches(rows, studentId)
    ensures g.Some? ==> g.value == Grades(rows[ParseId(studentId).value])
  {
    match ParseId(studentId)
    case Some(k) => if k in rows then Some(Grades(rows[k])) else None
    case None => None
  }

  /** A stored student's performance is found under the decimal form of its
      `id`, and a parameter that is not a decimal integer finds nothing. */
  lemma PerformanceById(rows: Table, k: nat, s: string)
    requires k in rows
    ensures Matches(rows, NatToString(k))
    ensures PerformanceOf(rows, NatToString(k)) == Some(Grades(rows[k]))
    ensures (s == [] || exists i :: 0 <= i < |s| && !IsDigit(s[i])) ==> PerformanceOf(rows, s) == None
  {
    ParseNatToString(k);
  }

  /** The answer `{ key: [...] }` of the list endpoints. */
  function ListBody(key: string, items: seq<Json>): (b: Json)
    ensures b.JObj? && Keys(b.fields) == [key]
    ensures Get(b, key) == Some(JArr(items))
  {
    JObj([(key, JArr(items))])
  }

  /** GET /api/schools. */
  function GetSchools(rows: Table, fault: Option<string>): (r: Response)
    ensures fault.Some? ==> r == Error(500, fault.value)
    ensures fault.None? ==> r.status == 200 && r.body == ListBody("schools", SchoolList(rows))
  {
    if fault.Some? then Error(500, fault.value) else Ok(ListBody("schools", SchoolList(rows)))
  }

  /** GET /api/students. */
  function GetStudents(rows: Table, fault: Option<string>): (r: Response)
    ensures fault.Some? ==> r == Error(500, fault.value)
    ensures fault.None? ==> r.status == 200 && r.body == ListBody("students", RowObjects(AllStudents(rows)))
  {
    if fault.Some? then Error(500, fault.value) else Ok(ListBody("students", RowObjects(AllStudents(rows))))
  }

  /** GET /api/students/by-school/:school. */
  function GetStudentsBySchool(rows: Table, school: string, fault: Option<string>): (r: Response)
    ensures fault.Some? ==> r == Error(500, fault.value)
    ensures fault.None? ==> (r.status == 200 &&
      r.body == ListBody("students", RowObjects(Selection(rows, SchoolCol, JStr(school)))))
  {
    if fault.Some? then Error(500, fault.value)
    else Ok(ListBody("students", RowObjects(Selection(rows, SchoolCol, JStr(school)))))
  }

  /** GET /api/students/by-gender/:gender. */
  function GetStudentsByGender(rows: Table, gender: string, fault: Option<string>): (r: Response)
    ensures fault.Some? ==> r == Error(500, fault.value)
    ensures fault.None? ==> (r.status == 200 &&
      r.body == ListBody("students", RowObjects(Selection(rows, SexCol, JStr(gender)))))
  {
    if fault.Some? then Error(500, fault.value)
    else Ok(ListBody("students", RowObjects(Selection(rows, SexCol, JStr(gender)))))
  }

  /** GET /api/performance/:studentId. `{ performanceData: undefined }`
      serialises as `{}`, so a student that is not found gives an empty
      object with status 200. */
  function GetPerformance(rows: Table, studentId: string, fault: Option<string>): (r: Response)
    ensures fault.Some? ==> r == Error(500, fault.value)
    ensures fault.None? ==> r.status == 200
    ensures fault.None? && PerformanceOf(rows, studentId).None? ==> r.body == JObj([])
    ensures fault.None? && PerformanceOf(rows, studentId).Some? ==>
      r.body == JObj([("performanceData", PerformanceOf(rows, studentId).value)])
  {
    if fault.Some? then Error(500, fault.value)
    else
      match PerformanceOf(rows, studentId)
      case Some(g) => Ok(JObj([("performanceData", g)]))
      case None => Ok(JObj([]))
  }

  /** GET /api/schools/:id/performance: the grades of every student of the school. */
  function GetSchoolPerformance(rows: Table, school: string, fault: Option<string>): (r: Response)
    ensures fault.Some? ==> r == Error(500, fault.value)
    ensures fault.None? ==> (r.status == 200 &&
      r.body == ListBody("performanceData", GradeList(Selection(rows, SchoolCol, JStr(school)))))
  {
    if fault.Some? then Error(500, fault.value)
    else Ok(ListBody("performanceData", GradeList(Selection(rows, SchoolCol, JStr(school)))))
  }

  /** Rows in ascending id order give distinct JSON objects, each naming
      its own id first. */
  lemma ObjectsDistinct(rs: seq<Row>)
    requires IdsIncreasing(rs)
    ensures forall i, j :: 0 <= i < j < |rs| ==> RowObjects(rs)[i] != RowObjects(rs)[j]
  {
    var os := RowObjects(rs);
    forall i, j | 0 <= i < j < |rs| ensures os[i] != os[j] {
      assert os[i].fields[0] == ("id", JNum(rs[i].id as real));
      assert os[j].fields[0] == ("id", JNum(rs[j].id as real));
      assert rs[i].id as real != rs[j].id as real;
    }
  }

  /** The `students` list of `GET /api/students` has one object per stored
      row: every row's object is in it, each entry is a stored row's object,
      and no entry appears twice. */
  lemma AllListed(rows: Table)
    requires Keyed(rows)
    ensures var os := RowObjects(AllStudents(rows));
      |os| == |rows| &&
      (forall k :: k in rows ==> RowObject(rows[k]) in os) &&
      (forall o :: o in os ==> exists k :: k in rows && o == RowObject(rows[k])) &&
      (forall i, j :: 0 <= i < j < |os| ==> os[i] != os[j])
  {
    var rs := AllStudents(rows);
    ObjectsOfScan(rows, rs);
    ObjectsDistinct(rs);
  }

  lemma ObjectsOfScan(rows: Table, rs: seq<Row>)
    requires forall k :: k in rows ==> rows[k] in rs
    requires forall i :: 0 <= i < |rs| ==> Stored(rows, rs[i])
    ensures forall k :: k in rows ==> RowObject(rows[k]) in RowObjects(rs)
    ensures forall o :: o in RowObjects(rs) ==> exists k :: k in rows && o == RowObject(rows[k])
  {
    var os := RowObjects(rs);
    forall k | k in rows ensures RowObject(rows[k]) in os {
      var i :| 0 <= i < |rs| && rs[i] == rows[k];
      assert os[i] == RowObject(rows[k]);
    }
    forall o | o in os ensures exists k :: k in rows && o == RowObject(rows[k]) {
      var i :| 0 <= i < |os| && os[i] == o;
      assert Stored(rows, rs[i]);
      var k :| k in rows && rows[k] == rs[i];
      assert o == RowObject(rows[k]);
    }
  }

  /** The `students` list of the by-school and by-gender endpoints holds the
      object of every stored row whose column `c` is `v`, only such objects,
      and none twice. */
  lemma SelectedListed(rows: Table, c: nat, v: Json)
    requires Keyed(rows)
    ensures var os := RowObjects(Selection(rows, c, v));
      (forall k :: k in rows && Field(rows[k], c) == v ==> RowObject(rows[k]) in os) &&
      (forall o :: o in os ==> exists k :: k in rows && Field(rows[k], c) == v && o == RowObject(rows[k])) &&
      (forall i, j :: 0 <= i < j < |os| ==> os[i] != os[j])
  {
    var sel := Selection(rows, c, v);
    SelectionExactly(rows, c, v);
    ObjectsOfSelection(rows, c, v, sel);
    ObjectsDistinct(sel);
  }

  lemma ObjectsOfSelection(rows: Table, c: nat, v: Json, sel: seq<Row>)
    requires forall k :: k in rows ==> (rows[k] in sel <==> Field(rows[k], c) == v)
    requires forall r :: r in sel ==> Stored(rows, r) && Field(r, c) == v
    ensures forall k :: k in rows && Field(rows[k], c) == v ==> RowObject(rows[k]) in RowObjects(sel)
    ensures forall o :: o in RowObjects(sel) ==>
      exists k :: k in rows && Field(rows[k], c) == v && o == RowObject(rows[k])
  {
    var os := RowObjects(sel);
    forall k | k in rows && Field(rows[k], c) == v
      ensures RowObject(rows[k]) in os
    {
      var i :| 0 <= i < |sel| && sel[i] == rows[k];
      assert os[i] == RowObject(rows[k]);
    }
    forall o | o in os
      ensures exists k :: k in rows && Field(rows[k], c) == v && o == RowObject(rows[k])
    {
      var i :| 0 <= i < |os| && os[i] == o;
      assert sel[i] in sel;
      var k :| k in rows && rows[k] == sel[i];
      assert o == RowObject(rows[k]);
    }
  }

  /** The `students` list of the unfiltered endpoint has one entry per stored
      row, and the by-school and by-gender lists are sub-lists of it. */
  lemma FilteredAreSubsets(rows: Table, v: string)
    requires Keyed(rows)
    ensures |RowObjects(AllStudents(rows))| == |rows|
    ensures forall r :: r in Selection(rows, SchoolCol, JStr(v)) ==> r in AllStudents(rows)
    ensures forall r :: r in Selection(rows, SexCol, JStr(v)) ==> r in AllStudents(rows)
    ensures |Selection(rows, SchoolCol, JStr(v))| <= |rows| && |Selection(rows, SexCol, JStr(v))| <= |rows|
  {
  }

  /** The school performance list has one entry per student of the school,
      each that student's grades. */
  lemma SchoolPerformanceRows(rows: Table, school: string)
    requires Keyed(rows)
    ensures forall k :: k in rows && Field(rows[k], SchoolCol) == JStr(school) ==>
      Grades(rows[k]) in GradeList(Selection(rows, SchoolCol, JStr(school)))
    ensures forall g :: g in GradeList(Selection(rows, SchoolCol, JStr(school))) ==>
      exists k :: k in rows && Field(rows[k], SchoolCol) == JStr(school) && g == Grades(rows[k])
  {
    var sel := Selection(rows, SchoolCol, JStr(school));
    SelectionExactly(rows, SchoolCol, JStr(school));
    GradesOfSelection(rows, SchoolCol, JStr(school), sel);
  }

  lemma GradesOfSelection(rows: Table, c: nat, v: Json, sel: seq<Row>)
    requires forall k :: k in rows ==> (rows[k] in sel <==> Field(rows[k], c) == v)
    requires forall r :: r in sel ==> Stored(rows, r) && Field(r, c) == v
    ensures forall k :: k in rows && Field(rows[k], c) == v ==> Grades(rows[k]) in GradeList(sel)
    ensures forall g :: g in GradeList(sel) ==>
      exists k :: k in rows && Field(rows[k], c) == v && g == Grades(rows[k])
  {
    var gs := GradeList(sel);
    forall k | k in rows && Field(rows[k], c) == v
      ensures Grades(rows[k]) in gs
    {
      var i :| 0 <= i < |sel| && sel[i] == rows[k];
      assert gs[i] == Grades(rows[k]);
    }
    forall g | g in gs
      ensures exists k :: k in rows && Field(rows[k], c) == v && g == Grades(rows[k])
    {
      var i :| 0 <= i < |gs| && gs[i] == g;
      assert sel[i] in sel;
      var k :| k in rows && rows[k] == sel[i];
      assert g == Grades(rows[k]);
    }
  }
}
