/**
 * The grades page joins each grade with the student and the course it refers
 * to, so that the grades table can show names. Two lookup tables are built
 * from the fetched student and course lists (on a repeated id the record met
 * last wins); then every grade, in order, gets four fields: the resolved
 * `student` and `course` (an embedded copy first, else the lookup, else null)
 * and the display strings `studentName` and `courseName`.
 */
module Grades {
  import opened JsValues
  import opened Text

  datatype Student = Student(
    id: string,
    firstName: Option<string>,
    lastName: Option<string>,
    status: string)

  datatype Course = Course(
    id: string,
    code: string,
    name: Option<string>,
    instructor: string,
    credits: int,
    capacity: int,
    isActive: bool)

  datatype Score = Points(points: real) | Letter(letter: string)

  /**
   * A grade as the backend serves it. `student` and `course` are the copies
   * the backend may embed, `studentName` and `courseName` the display strings
   * it may embed; the enriched grade is the same record with those four
   * fields replaced (`{ ...g, student, course, studentName, courseName }`).
   */
  datatype Grade = Grade(
    id: string,
    studentId: string,
    courseId: string,
    score: Score,
    student: Option<Student>,
    course: Option<Course>,
    studentName: Option<string>,
    courseName: Option<string>)

  function StudentKey(s: Student): string { s.id }
  function CourseKey(c: Course): string { c.id }

  // ---------------------------------------------------------------------
  // Lookup tables

  /** The table `forEach(x => m.set(key(x), x))` leaves behind, from an empty map. */
  function Index<T>(xs: seq<T>, key: T -> string): (m: map<string, T>)
    decreases |xs|
  {
    if xs == [] then map[]
    else Index(xs[..|xs| - 1], key)[key(xs[|xs| - 1]) := xs[|xs| - 1]]
  }

  /** No record after position `i` has the same key as `xs[i]`. */
  predicate LastWithKey<T>(xs: seq<T>, key: T -> string, i: int)
  {
    0 <= i < |xs| && forall j :: i < j < |xs| ==> key(xs[j]) != key(xs[i])
  }

  /**
   * `m` holds exactly the keys that occur in `xs`, and each key is mapped to
   * the last record of `xs` that has it.
   */
  ghost predicate LastWins<T>(m: map<string, T>, xs: seq<T>, key: T -> string)
  {
    (forall k :: k in m <==> exists i :: 0 <= i < |xs| && key(xs[i]) == k)
    && (forall i :: LastWithKey(xs, key, i) ==> key(xs[i]) in m && m[key(xs[i])] == xs[i])
  }

  lemma IndexLastWins<T>(xs: seq<T>, key: T -> string)
    ensures LastWins(Index(xs, key), xs, key)
  {
    IndexKeys(xs, key);
    IndexValues(xs, key);
  }

  /** The table has a key exactly when some record of the list carries it. */
  lemma {:induction false} IndexKeys<T>(xs: seq<T>, key: T -> string)
    ensures forall k :: k in Index(xs, key) <==> exists i :: 0 <= i < |xs| && key(xs[i]) == k
    decreases |xs|
  {
    if xs != [] {
      var n := |xs| - 1;
      var init := xs[..n];
      IndexKeys(init, key);
      forall k ensures k in Index(xs, key) <==> exists i :: 0 <= i < |xs| && key(xs[i]) == k {
        if k in Index(init, key) {
          var i :| 0 <= i < |init| && key(init[i]) == k;
          assert key(xs[i]) == k;
        }
        if exists i :: 0 <= i < |xs| && key(xs[i]) == k {
          var i :| 0 <= i < |xs| && key(xs[i]) == k;
          if i < n {
            assert key(init[i]) == k;
          }
        }
      }
    }
  }

  /** The last record carrying a key is the one the table keeps for it. */
  lemma {:induction false} IndexValues<T>(xs: seq<T>, key: T -> string)
    ensures forall i :: LastWithKey(xs, key, i) ==> key(xs[i]) in Index(xs, key) && Index(xs, key)[key(xs[i])] == xs[i]
    decreases |xs|
  {
    if xs != [] {
      var n := |xs| - 1;
      var init := xs[..n];
      IndexValues(init, key);
      forall i | LastWithKey(xs, key, i) ensures key(xs[i]) in Index(xs, key) && Index(xs, key)[key(xs[i])] == xs[i] {
        if i < n {
          assert init[i] == xs[i];
          assert LastWithKey(init, key, i);
        }
      }
    }
  }

  /**
   * Builds a lookup table from a fetched list, which may be missing
   * (`(xs || []).forEach(x => m.set(key(x), x))`).
   */
  method BuildIndex<T>(xs: Option<seq<T>>, key: T -> string) returns (m: map<string, T>)
    ensures m == Index(OrEmpty(xs), key)
    ensures LastWins(m, OrEmpty(xs), key)
    ensures xs.None? ==> m == map[]
  {
    var items := OrEmpty(xs);
    m := map[];
    var i := 0;
    while i < |items|
      invariant 0 <= i <= |items|
      invariant m == Index(items[..i], key)
    {
      assert items[..i + 1][..i] == items[..i];
      m := m[key(items[i]) := items[i]];
      i := i + 1;
    }
    assert items[..i] == items;
    IndexLastWins(items, key);
  }

  /** `m.get(k)`, with undefined as `None`. */
  function Lookup<T>(m: map<string, T>, k: string): (r: Option<T>)
    ensures r.Some? <==> k in m
    ensures r.Some? ==> r.value == m[k]
  {
    if k in m then Some(m[k]) else None
  }

  // ---------------------------------------------------------------------
  // Resolving one grade

  /** `` `${first || ""} ${last || ""}`.trim() `` */
  function FullName(s: Student): (r: string)
    ensures r != [] ==> !IsSpace(r[0]) && !IsSpace(r[|r| - 1])
  {
    Trim(OrEmptyText(s.firstName) + " " + OrEmptyText(s.lastName))
  }

  /** The fields the table reads, resolved for one grade; every other field is kept. */
  function EnrichGrade(g: Grade, students: map<string, Student>, courses: map<string, Course>): (r: Grade)
    ensures r == g.(student := r.student, course := r.course, studentName := r.studentName, courseName := r.courseName)
  {
    var student := if g.student.Some? then g.student else Lookup(students, g.studentId);
    var course := if g.course.Some? then g.course else Lookup(courses, g.courseId);
    var studentName :=
      if TruthyText(g.studentName) then g.studentName
      else if student.Some? then Some(FullName(student.value))
      else None;
    var courseName :=
      if TruthyText(g.courseName) then g.courseName
      else if course.Some? then course.value.name
      else None;
    g.(student := student, course := course, studentName := studentName, courseName := courseName)
  }

  /** Every field but the four the enrichment sets is equal. */
  predicate SameOtherFields(a: Grade, b: Grade)
  {
    a == b.(student := a.student, course := a.course, studentName := a.studentName, courseName := a.courseName)
  }

  /** `enrichedGrades`: one enriched record per fetched grade, in order. */
  function Enrich(grades: Option<seq<Grade>>, students: Option<seq<Student>>, courses: Option<seq<Course>>)
    : (r: seq<Grade>)
    ensures |r| == |OrEmpty(grades)|
    ensures grades.None? ==> r == []
    ensures forall i :: 0 <= i < |r| ==> SameOtherFields(r[i], OrEmpty(grades)[i])
  {
    var gs := OrEmpty(grades);
    var sm := Index(OrEmpty(students), StudentKey);
    var cm := Index(OrEmpty(courses), CourseKey);
    seq(|gs|, i requires 0 <= i < |gs| => EnrichGrade(gs[i], sm, cm))
  }

  /** The computation the page runs: build both tables, then map the grades. */
  method EnrichGrades(grades: Option<seq<Grade>>, students: Option<seq<Student>>, courses: Option<seq<Course>>)
    returns (r: seq<Grade>)
    ensures r == Enrich(grades, students, courses)
  {
    var sMap := BuildIndex(students, StudentKey);
    var cMap := BuildIndex(courses, CourseKey);
    var gs := OrEmpty(grades);
    r := seq(|gs|, i requires 0 <= i < |gs| => EnrichGrade(gs[i], sMap, cMap));
  }

  // ---------------------------------------------------------------------
  // Properties of the enrichment

  /**
   * `r` is what looking `k` up in the table built from `xs` yields: nothing
   * when no record has that key, otherwise the last record that has it.
   */
  ghost predicate ResolvesTo<T>(xs: seq<T>, key: T -> string, k: string, r: Option<T>)
  {
    (r.None? <==> forall j :: 0 <= j < |xs| ==> key(xs[j]) != k)
    && (r.Some? ==> exists j :: LastWithKey(xs, key, j) && key(xs[j]) == k && xs[j] == r.value)
  }

  lemma LookupResolves<T>(xs: seq<T>, key: T -> string, k: string)
    ensures ResolvesTo(xs, key, k, Lookup(Index(xs, key), k))
  {
    var m := Index(xs, key);
    IndexLastWins(xs, key);
    if k in m {
      var i :| 0 <= i < |xs| && key(xs[i]) == k;
      LastOccurrence(xs, key, i);
    }
  }

  /** If some record has the key of `xs[i]`, one of them is the last. */
  lemma {:induction false} LastOccurrence<T>(xs: seq<T>, key: T -> string, i: int)
    requires 0 <= i < |xs|
    ensures exists j :: LastWithKey(xs, key, j) && key(xs[j]) == key(xs[i])
    decreases |xs| - i
  {
    if !LastWithKey(xs, key, i) {
      var j :| i < j < |xs| && key(xs[j]) == key(xs[i]);
      LastOccurrence(xs, key, j);
    }
  }

  /**
   * The resolved student is the embedded copy when there is one; otherwise it
   * is the last fetched student whose id is the grade's `studentId`, or null
   * when none has it.
   */
  lemma EnrichedStudent(grades: Option<seq<Grade>>, students: Option<seq<Student>>, courses: Option<seq<Course>>, i: int)
    requires 0 <= i < |OrEmpty(grades)|
    ensures var g := OrEmpty(grades)[i];
            var r := Enrich(grades, students, courses)[i];
            (g.student.Some? ==> r.student == g.student)
            && (g.student.None? ==> ResolvesTo(OrEmpty(students), StudentKey, g.studentId, r.student))
  {
    LookupResolves(OrEmpty(students), StudentKey, OrEmpty(grades)[i].studentId);
  }

  /**
   * The resolved course is the embedded copy when there is one; otherwise it
   * is the last fetched course whose id is the grade's `courseId`, or null
   * when none has it.
   */
  lemma EnrichedCourse(grades: Option<seq<Grade>>, students: Option<seq<Student>>, courses: Option<seq<Course>>, i: int)
    requires 0 <= i < |OrEmpty(grades)|
    ensures var g := OrEmpty(grades)[i];
            var r := Enrich(grades, students, courses)[i];
            (g.course.Some? ==> r.course == g.course)
            && (g.course.None? ==> ResolvesTo(OrEmpty(courses), CourseKey, g.courseId, r.course))
  {
    LookupResolves(OrEmpty(courses), CourseKey, OrEmpty(grades)[i].courseId);
  }

  /**
   * A non-empty embedded `studentName` wins; otherwise a resolved student
   * gives its trimmed full name (possibly the empty string); otherwise the
   * name stays undefined.
   */
  lemma EnrichedStudentName(grades: Option<seq<Grade>>, students: Option<seq<Student>>, courses: Option<seq<Course>>, i: int)
    requires 0 <= i < |OrEmpty(grades)|
    ensures var g := OrEmpty(grades)[i];
            var r := Enrich(grades, students, courses)[i];
            (TruthyText(g.studentName) ==> r.studentName == g.studentName)
            && (!TruthyText(g.studentName) && r.student.Some? ==> r.studentName == Some(FullName(r.student.value)))
            && (!TruthyText(g.studentName) && r.student.None? ==> r.studentName == None)
  {
  }

  /**
   * A non-empty embedded `courseName` wins; otherwise a resolved course gives
   * its `name` as it is; otherwise the name stays undefined.
   */
  lemma EnrichedCourseName(grades: Option<seq<Grade>>, students: Option<seq<Student>>, courses: Option<seq<Course>>, i: int)
    requires 0 <= i < |OrEmpty(grades)|
    ensures var g := OrEmpty(grades)[i];
            var r := Enrich(grades, students, courses)[i];
            (TruthyText(g.courseName) ==> r.courseName == g.courseName)
            && (!TruthyText(g.courseName) && r.course.Some? ==> r.courseName == r.course.value.name)
            && (!TruthyText(g.courseName) && r.course.None? ==> r.courseName == None)
  {
  }

  /** Two clean name parts are joined by one space. */
  lemma FullNameJoins(s: Student)
    requires s.firstName.Some? && s.firstName.value != [] && !IsSpace(s.firstName.value[0])
    requires s.lastName.Some? && s.lastName.value != [] && !IsSpace(s.lastName.value[|s.lastName.value| - 1])
    ensures FullName(s) == s.firstName.value + " " + s.lastName.value
  {
    var t := s.firstName.value + " " + s.lastName.value;
    assert t[0] == s.firstName.value[0] && t[|t| - 1] == s.lastName.value[|s.lastName.value| - 1];
    TrimClean(t);
  }

  /** A missing or empty first name leaves the last name alone, without the separator. */
  lemma FullNameLastOnly(s: Student)
    requires !TruthyText(s.firstName)
    requires s.lastName.Some? && s.lastName.value != []
    requires !IsSpace(s.lastName.value[0]) && !IsSpace(s.lastName.value[|s.lastName.value| - 1])
    ensures FullName(s) == s.lastName.value
  {
    var l := s.lastName.value;
    var t := OrEmptyText(s.firstName) + " " + l;
    assert t == [' '] + l;
    assert t[1..] == l;
    assert TrimStart(l) == l;
    assert TrimStart(t) == l;
    assert TrimEnd(l) == l;
  }

  /** A student with neither name gets the empty string, which is not undefined. */
  lemma FullNameNoParts(s: Student)
    requires !TruthyText(s.firstName) && !TruthyText(s.lastName)
    ensures FullName(s) == ""
  {
    assert OrEmptyText(s.firstName) + " " + OrEmptyText(s.lastName) == " ";
  }

  /** A missing or empty last name leaves the first name alone, without the separator. */
  lemma FullNameFirstOnly(s: Student)
    requires !TruthyText(s.lastName)
    requires s.firstName.Some? && s.firstName.value != []
    requires !IsSpace(s.firstName.value[0]) && !IsSpace(s.firstName.value[|s.firstName.value| - 1])
    ensures FullName(s) == s.firstName.value
  {
    var f := s.firstName.value;
    var t := f + " " + OrEmptyText(s.lastName);
    assert t == f + [' '];
    assert t[0] == f[0];
    assert TrimStart(t) == t;
    assert t[..|t| - 1] == f;
    assert TrimEnd(f) == f;
    assert TrimEnd(t) == f;
  }

  lemma {:induction false} EnrichGradeIdempotent(g: Grade, students: map<string, Student>, courses: map<string, Course>)
    ensures EnrichGrade(EnrichGrade(g, students, courses), students, courses) == EnrichGrade(g, students, courses)
  {
    var r := EnrichGrade(g, students, courses);
    var r2 := EnrichGrade(r, students, courses);
    assert r2.student == r.student;
    assert r2.course == r.course;
  }

  /**
   * Feeding enriched grades back through the enrichment with the same
   * students and courses changes nothing.
   */
  lemma EnrichIdempotent(grades: Option<seq<Grade>>, students: Option<seq<Student>>, courses: Option<seq<Course>>)
    ensures Enrich(Some(Enrich(grades, students, courses)), students, courses) == Enrich(grades, students, courses)
  {
    var r := Enrich(grades, students, courses);
    var sm := Index(OrEmpty(students), StudentKey);
    var cm := Index(OrEmpty(courses), CourseKey);
    forall i | 0 <= i < |r| ensures Enrich(Some(r), students, courses)[i] == r[i] {
      EnrichGradeIdempotent(OrEmpty(grades)[i], sm, cm);
    }
  }

  lemma IndexSingle<T>(x: T, key: T -> string)
    ensures Index([x], key) == map[key(x) := x]
  {
    assert [x][..0] == [];
  }

  lemma AnnLeeName(ann: Student)
    requires ann.firstName == Some("Ann") && ann.lastName == Some("Lee")
    ensures FullName(ann) == "Ann Lee"
  {
    var t := "Ann Lee";
    assert OrEmptyText(ann.firstName) + " " + OrEmptyText(ann.lastName) == t;
    assert t[0] == 'A' && t[6] == 'e';
    TrimClean(t);
  }

  /** A grade that refers to a fetched student and course by id. */
  lemma ResolvedExample(ann: Student, algebra: Course, g: Grade)
    requires ann == Student("s1", Some("Ann"), Some("Lee"), "active")
    requires algebra == Course("c1", "MATH101", Some("Algebra"), "Smith", 3, 30, true)
    requires g == Grade("g1", "s1", "c1", Points(90.0), None, None, None, None)
    ensures Enrich(Some([g]), Some([ann]), Some([algebra]))
              == [g.(student := Some(ann), course := Some(algebra), studentName := Some("Ann Lee"), courseName := Some("Algebra"))]
  {
    var sm, cm := Index([ann], StudentKey), Index([algebra], CourseKey);
    IndexSingle(ann, StudentKey);
    IndexSingle(algebra, CourseKey);
    AnnLeeName(ann);
    var e := EnrichGrade(g, sm, cm);
    assert e.student == Some(ann) && e.course == Some(algebra);
    assert e == g.(student := Some(ann), course := Some(algebra), studentName := Some("Ann Lee"), courseName := Some("Algebra"));
    assert Enrich(Some([g]), Some([ann]), Some([algebra])) == [e];
  }

  /** A grade whose student id matches no fetched student. */
  lemma MissingStudentExample(ann: Student, algebra: Course, g: Grade)
    requires ann == Student("s1", Some("Ann"), Some("Lee"), "active")
    requires algebra == Course("c1", "MATH101", Some("Algebra"), "Smith", 3, 30, true)
    requires g == Grade("g2", "sX", "c1", Points(70.0), None, None, None, None)
    ensures Enrich(Some([g]), Some([ann]), Some([algebra]))
              == [g.(student := None, course := Some(algebra), studentName := None, courseName := Some("Algebra"))]
  {
    IndexSingle(ann, StudentKey);
    IndexSingle(algebra, CourseKey);
  }
}
